/**
 * The domain list conversions of src/util/utils.ts: a list of domain names
 * and a list of `IDomain` records carry the same information.
 */
module Utils {
  import opened Types

  /** `parseDomains(ds)`: each name wrapped as `{domain}`, in the same order. */
  function ParseDomains(ds: seq<string>): (xs: seq<IDomain>)
    ensures |xs| == |ds|
    ensures forall i :: 0 <= i < |ds| ==> xs[i] == IDomain(ds[i])
  {
    seq(|ds|, i requires 0 <= i < |ds| => IDomain(ds[i]))
  }

  /** `formatDomains(xs)`: the names of the records, in the same order. */
  function FormatDomains(xs: seq<IDomain>): (ds: seq<string>)
    ensures |ds| == |xs|
    ensures forall i :: 0 <= i < |xs| ==> ds[i] == xs[i].domain
  {
    seq(|xs|, i requires 0 <= i < |xs| => xs[i].domain)
  }

  /** Formatting undoes parsing. */
  lemma FormatParse(ds: seq<string>)
    ensures FormatDomains(ParseDomains(ds)) == ds
  {
  }

  /** Parsing undoes formatting, because a record holds its name and nothing else. */
  lemma ParseFormat(xs: seq<IDomain>)
    ensures ParseDomains(FormatDomains(xs)) == xs
  {
  }

  /** Both conversions distribute over concatenation, so they keep order. */
  lemma ParseAppend(a: seq<string>, b: seq<string>)
    ensures ParseDomains(a + b) == ParseDomains(a) + ParseDomains(b)
  {
  }
}
