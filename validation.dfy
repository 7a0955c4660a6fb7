/**
 * The domain validator (src/util/validation.ts): an ordered cascade of
 * checks on a domain name, the first failing one deciding the error, and
 * `domainRegex` written out as a predicate.
 */
module Validation {

  datatype DomainError =
    | None
    | ConsecutiveDots
    | AlreadyInUse
    | InvalidChars
    | MaxDomainLen
    | MaxLabelLen
    | MinLastLabelLength
    | NotEnoughSections
    | StartOrEndWithDotOrDash

  /** `s.split(".")`: the labels between the dots, empty ones included; never an empty list. */
  function Split(s: string): (labels: seq<string>)
    ensures |labels| >= 1
    ensures forall k, i :: 0 <= k < |labels| && 0 <= i < |labels[k]| ==> labels[k][i] != '.'
  {
    if s == [] then [""]
    else
      var rest := Split(s[1..]);
      if s[0] == '.' then [""] + rest else [[s[0]] + rest[0]] + rest[1..]
  }

  /**
   * `s.length`: JavaScript strings count UTF-16 code units, so a character
   * beyond U+FFFF counts twice.
   */
  function Utf16Length(s: string): (n: nat)
    ensures |s| <= n <= 2 * |s|
  {
    if s == [] then 0 else (if s[0] as int > 0xFFFF then 2 else 1) + Utf16Length(s[1..])
  }

  lemma {:induction false} Utf16LengthBmp(s: string)
    requires forall i :: 0 <= i < |s| ==> s[i] as int <= 0xFFFF
    ensures Utf16Length(s) == |s|
  {
    if s != [] {
      Utf16LengthBmp(s[1..]);
    }
  }

  /** There is one label more than there are dots, so at most one more than there are characters. */
  lemma {:induction false} SplitCount(s: string)
    ensures |Split(s)| <= |s| + 1
  {
    if s != [] {
      SplitCount(s[1..]);
    }
  }

  /** Every character of a label is a character of the string split. */
  lemma {:induction false} LabelCharsIn(s: string)
    ensures forall k, i :: 0 <= k < |Split(s)| && 0 <= i < |Split(s)[k]| ==> Split(s)[k][i] in s
  {
    if s != [] {
      LabelCharsIn(s[1..]);
      assert forall x :: x in s[1..] ==> x in s;
    }
  }

  /** Joining the labels with dots gives the string back, so `split` loses nothing. */
  function Join(labels: seq<string>): string
    requires |labels| >= 1
  {
    if |labels| == 1 then labels[0] else labels[0] + "." + Join(labels[1..])
  }

  lemma {:induction false} JoinSplit(s: string)
    ensures Join(Split(s)) == s
  {
    if s != [] {
      JoinSplit(s[1..]);
      var rest := Split(s[1..]);
      if s[0] == '.' {
        assert ([""] + rest)[1..] == rest;
        assert s == "." + Join(rest);
      } else {
        var labels := [[s[0]] + rest[0]] + rest[1..];
        if |rest| == 1 {
          assert s == [s[0]] + rest[0];
        } else {
          assert labels[1..] == rest[1..];
          assert Join(rest) == rest[0] + "." + Join(rest[1..]);
          assert s == [s[0]] + s[1..];
        }
      }
    }
  }

  /** A non-empty first label means the string does not start with a dot. */
  lemma SplitFirst(s: string)
    requires Split(s)[0] != ""
    ensures s != [] && s[0] != '.' && s[0] == Split(s)[0][0]
  {
  }

  /** A non-empty string has a non-empty first label or more than one label. */
  lemma SplitOfNonEmpty(s: string)
    requires s != []
    ensures |Split(s)| > 1 || |Split(s)[0]| > 0
  {
  }

  /** A non-empty last label means the string does not end with a dot. */
  lemma {:induction false} SplitLast(s: string)
    requires Split(s)[|Split(s)| - 1] != ""
    ensures s != [] && s[|s| - 1] != '.'
  {
    if |s| > 1 {
      var rest := Split(s[1..]);
      SplitLastOfTail(s);
      if s[0] != '.' && |rest| == 1 {
        SplitOfNonEmpty(s[1..]);
        assert |rest[0]| > 0;
      } else {
        assert |rest[|rest| - 1]| > 0;
      }
      SplitLast(s[1..]);
      assert s[|s| - 1] == s[1..][|s[1..]| - 1];
    }
  }

  /** The last label of `s` comes from the last label of its tail, extended by `s[0]` when the tail has one label. */
  lemma SplitLastOfTail(s: string)
    requires s != []
    ensures var rest := Split(s[1..]);
      Split(s)[|Split(s)| - 1] == if s[0] != '.' && |rest| == 1 then [s[0]] + rest[0] else rest[|rest| - 1]
  {
  }

  predicate LabelChar(c: char) {
    ('a' <= c <= 'z') || ('A' <= c <= 'Z') || ('0' <= c <= '9') || c == '-'
  }

  /** `s` contains the two characters `a`, `b` next to each other. */
  predicate HasPair(s: string, a: char, b: char) {
    exists i :: 0 <= i < |s| - 1 && s[i] == a && s[i + 1] == b
  }

  /**
   * `domainRegex.test(d)`: not starting or ending with `-`; no `..`, `.-`
   * or `-.`; only letters, digits, `-` and `.`; and between 2 and 254
   * labels, each of 1 to 63 characters.
   */
  predicate DomainRegex(d: string) {
    && (d == [] || d[0] != '-')
    && (d == [] || d[|d| - 1] != '-')
    && !HasPair(d, '.', '.') && !HasPair(d, '.', '-') && !HasPair(d, '-', '.')
    && (forall i :: 0 <= i < |d| ==> LabelChar(d[i]) || d[i] == '.')
    && 2 <= |Split(d)| <= 254
    && (forall k :: 0 <= k < |Split(d)| ==> 1 <= |Split(d)[k]| <= 63)
  }

  /** Enough labels, none longer than 63 code units: the first two checks pass. */
  predicate LabelsFit(d: string) {
    |Split(d)| >= 2 && forall k :: 0 <= k < |Split(d)| ==> Utf16Length(Split(d)[k]) <= 63
  }

  /** The domain starts or ends with a dot or a dash. */
  predicate DotOrDashAtEnds(d: string) {
    d != [] && (d[0] == '.' || d[0] == '-' || d[|d| - 1] == '.' || d[|d| - 1] == '-')
  }

  /** The checks before the last-label check all pass. */
  predicate EarlyChecksPass(d: string) {
    LabelsFit(d) && !HasPair(d, '.', '.') && Utf16Length(d) <= 253 && !DotOrDashAtEnds(d)
  }

  function LastLabel(d: string): string {
    Split(d)[|Split(d)| - 1]
  }

  /** `checkForDomainError(domain)`: the first check that fails decides the error. */
  function CheckForDomainError(d: string): (e: DomainError)
    ensures e == NotEnoughSections <==> |Split(d)| < 2
    ensures e == MaxLabelLen <==> |Split(d)| >= 2 && exists k :: 0 <= k < |Split(d)| && Utf16Length(Split(d)[k]) > 63
    ensures e == ConsecutiveDots <==> LabelsFit(d) && HasPair(d, '.', '.')
    ensures e == MaxDomainLen <==> LabelsFit(d) && !HasPair(d, '.', '.') && Utf16Length(d) > 253
    ensures e == StartOrEndWithDotOrDash <==> LabelsFit(d) && !HasPair(d, '.', '.') && Utf16Length(d) <= 253 && DotOrDashAtEnds(d)
    ensures e == MinLastLabelLength <==> EarlyChecksPass(d) && Utf16Length(LastLabel(d)) < 2
    ensures e == InvalidChars <==> EarlyChecksPass(d) && Utf16Length(LastLabel(d)) >= 2 && !DomainRegex(d)
    ensures e != AlreadyInUse
  {
    var labels := Split(d);
    if |labels| < 2 then NotEnoughSections
    else if exists k :: 0 <= k < |labels| && Utf16Length(labels[k]) > 63 then MaxLabelLen
    else if HasPair(d, '.', '.') then ConsecutiveDots
    else if Utf16Length(d) > 253 then MaxDomainLen
    else if d[0] == '.' || d[0] == '-' || d[|d| - 1] == '.' || d[|d| - 1] == '-' then StartOrEndWithDotOrDash
    else if Utf16Length(labels[|labels| - 1]) < 2 then MinLastLabelLength
    else if !DomainRegex(d) then InvalidChars
    else None
  }

  /**
   * A string with no dot at either end and no two dots in a row has no
   * empty label.
   */
  lemma {:induction false} NoEmptyLabel(s: string)
    requires s != [] && s[0] != '.' && s[|s| - 1] != '.' && !HasPair(s, '.', '.')
    ensures forall k :: 0 <= k < |Split(s)| ==> Split(s)[k] != ""
    decreases |s|
  {
    if |s| > 1 {
      var t := s[1..];
      var rest := Split(t);
      assert t[|t| - 1] == s[|s| - 1];
      if t[0] != '.' {
        NoEmptyLabel(t);
      } else {
        var u := t[1..];
        assert |s| > 2 && s[2] != '.';
        assert u[|u| - 1] == s[|s| - 1] && u[0] == s[2];
        NoEmptyLabel(u);
        assert rest[1..] == Split(u);
      }
    }
  }

  /**
   * Once the earlier checks pass, the regex can fail only on a character
   * outside letters, digits, `-` and `.`, or on `.-` or `-.`: the label
   * count and label lengths it demands already hold.
   */
  lemma InvalidCharsExactly(d: string)
    requires EarlyChecksPass(d)
    ensures !DomainRegex(d) <==>
      (exists i :: 0 <= i < |d| && !LabelChar(d[i]) && d[i] != '.')
      || HasPair(d, '.', '-') || HasPair(d, '-', '.')
  {
    NoEmptyLabel(d);
    SplitCount(d);
  }

  /** The domains the validator accepts: those the regex matches, at most 253 long, whose last label has 2 or more characters. */
  predicate WellFormed(d: string) {
    DomainRegex(d) && |d| <= 253 && |LastLabel(d)| >= 2
  }

  /** Letters, digits, `-` and `.` are one UTF-16 code unit each, in the domain and in each of its labels. */
  lemma RegexLengths(d: string)
    requires DomainRegex(d)
    ensures Utf16Length(d) == |d|
    ensures forall k :: 0 <= k < |Split(d)| ==> Utf16Length(Split(d)[k]) == |Split(d)[k]|
  {
    Utf16LengthBmp(d);
    LabelCharsIn(d);
    forall k | 0 <= k < |Split(d)|
      ensures Utf16Length(Split(d)[k]) == |Split(d)[k]|
    {
      var lab := Split(d)[k];
      forall i | 0 <= i < |lab|
        ensures lab[i] as int <= 0xFFFF
      {
        var j :| 0 <= j < |d| && d[j] == lab[i];
      }
      Utf16LengthBmp(lab);
    }
  }

  /** `None` exactly for well-formed domains: the earlier checks add nothing the regex does not already demand, except length. */
  lemma NoneIffWellFormed(d: string)
    ensures CheckForDomainError(d) == None <==> WellFormed(d)
  {
    var labels := Split(d);
    if DomainRegex(d) {
      RegexLengths(d);
    }
    if WellFormed(d) {
      SplitFirst(d);
      SplitLast(d);
      assert !(exists k :: 0 <= k < |labels| && Utf16Length(labels[k]) > 63);
    }
  }

  /** An accepted domain has every label 1 to 63 characters long and at most 253 characters in all. */
  lemma NoneBounds(d: string)
    requires CheckForDomainError(d) == None
    ensures forall k :: 0 <= k < |Split(d)| ==> 1 <= |Split(d)[k]| <= 63
    ensures 2 <= |Split(d)| && |d| <= 253
  {
  }
}
