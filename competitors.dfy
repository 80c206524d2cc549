/**
 * Competitor lists. The server receives them as one string and splits it
 * (`split(/[\s,]+/)`, `trim`, drop empty entries); the analyzer splits each
 * entry again (`flatMap(c => c.split(/[\s,]+/)).filter(c => c.length > 0)`).
 */
module Competitors {
  import opened Strings
  import opened Seqs

  /** A character of the class `[\s,]`. */
  predicate IsSeparator(c: char)
  {
    IsSpace(c) || c == ','
  }

  predicate IsToken(t: string)
  {
    t != [] && forall k :: 0 <= k < |t| ==> !IsSeparator(t[k])
  }

  /** Index of the first separator at or after `i`, or `|s|`. */
  function FieldEnd(s: string, i: nat): (e: nat)
    requires i <= |s|
    ensures i <= e <= |s|
    ensures forall k :: i <= k < e ==> !IsSeparator(s[k])
    ensures e == |s| || IsSeparator(s[e])
    decreases |s| - i
  {
    if i < |s| && !IsSeparator(s[i]) then FieldEnd(s, i + 1) else i
  }

  /** End of the run of separators that starts at `j`. */
  function SeparatorEnd(s: string, j: nat): (e: nat)
    requires j <= |s|
    ensures j <= e <= |s|
    ensures forall k :: j <= k < e ==> IsSeparator(s[k])
    ensures e == |s| || !IsSeparator(s[e])
    decreases |s| - j
  {
    if j < |s| && IsSeparator(s[j]) then SeparatorEnd(s, j + 1) else j
  }

  /**
   * `s.split(/[\s,]+/)`: the fields between maximal runs of separators. A
   * leading or trailing run yields an empty field, and `""` yields `[""]`.
   */
  function Split(s: string): (fields: seq<string>)
    ensures |fields| >= 1
    ensures forall f :: f in fields ==> forall k :: 0 <= k < |f| ==> !IsSeparator(f[k])
    decreases |s|
  {
    var e := FieldEnd(s, 0);
    if e == |s| then [s] else [s[..e]] + Split(s[SeparatorEnd(s, e)..])
  }

  /** `s.trim()`. */
  function Trim(s: string): (r: string)
    ensures |r| <= |s|
    decreases |s|
  {
    if s != [] && IsSpace(s[0]) then Trim(s[1..])
    else if s != [] && IsSpace(s[|s| - 1]) then Trim(s[..|s| - 1])
    else s
  }

  lemma TrimWithoutSpace(s: string)
    requires forall k :: 0 <= k < |s| ==> !IsSpace(s[k])
    ensures Trim(s) == s
  {
  }

  function NonEmpty(s: string): bool { |s| > 0 }

  /** `cs.flatMap(c => c.split(/[\s,]+/))`. */
  function SplitAll(cs: seq<string>): seq<string>
  {
    if cs == [] then [] else Split(cs[0]) + SplitAll(cs[1..])
  }

  /** The analyzer's `sanitizedCompetitors`. */
  function Sanitize(cs: seq<string>): seq<string>
  {
    Filter(SplitAll(cs), NonEmpty)
  }

  function TrimAll(fs: seq<string>): seq<string>
  {
    if fs == [] then [] else [Trim(fs[0])] + TrimAll(fs[1..])
  }

  /** The server's `compsArray`: split, trim each field, drop empty ones. */
  function Parse(s: string): seq<string>
  {
    Filter(TrimAll(Split(s)), NonEmpty)
  }

  /** Every entry of a sanitised list is a non-empty run without separators. */
  lemma {:induction false} SanitizeYieldsTokens(cs: seq<string>)
    ensures forall t :: t in Sanitize(cs) ==> IsToken(t)
  {
    forall t | t in Sanitize(cs) ensures IsToken(t) {
      SplitAllFields(cs, t);
    }
  }

  lemma {:induction false} SplitAllFields(cs: seq<string>, t: string)
    requires t in SplitAll(cs)
    ensures forall k :: 0 <= k < |t| ==> !IsSeparator(t[k])
  {
    if t !in Split(cs[0]) {
      SplitAllFields(cs[1..], t);
    }
  }

  lemma {:induction false} TrimAllFields(fs: seq<string>)
    requires forall f :: f in fs ==> forall k :: 0 <= k < |f| ==> !IsSeparator(f[k])
    ensures TrimAll(fs) == fs
  {
    if fs != [] {
      TrimWithoutSpace(fs[0]);
      TrimAllFields(fs[1..]);
    }
  }

  /** Parsing on the server and sanitising in the analyzer agree on one string. */
  lemma ParseIsSanitize(s: string)
    ensures Parse(s) == Sanitize([s])
  {
    TrimAllFields(Split(s));
    assert SplitAll([s]) == Split(s) by { assert [s][1..] == []; }
  }

  /** `tokens.join(",")`. */
  function Join(ts: seq<string>): string
  {
    if ts == [] then [] else if |ts| == 1 then ts[0] else ts[0] + "," + Join(ts[1..])
  }

  /** A token is its own only field. */
  lemma SplitToken(t: string)
    requires IsToken(t)
    ensures Split(t) == [t]
  {
    assert FieldEnd(t, 0) == |t|;
  }

  /** `FieldEnd` is the first separator position: any position with that property is it. */
  lemma {:induction false} FieldEndIs(s: string, i: nat, e: nat)
    requires i <= e <= |s|
    requires forall k :: i <= k < e ==> !IsSeparator(s[k])
    requires e == |s| || IsSeparator(s[e])
    ensures FieldEnd(s, i) == e
    decreases e - i
  {
    if i < e {
      FieldEndIs(s, i + 1, e);
    }
  }

  lemma {:induction false} JoinStartsWithToken(ts: seq<string>)
    requires ts != [] && forall t :: t in ts ==> IsToken(t)
    ensures Join(ts) != [] && !IsSeparator(Join(ts)[0])
  {
    assert ts[0] in ts;
    assert Join(ts)[0] == ts[0][0];
  }

  lemma {:induction false} SplitJoin(ts: seq<string>)
    requires ts != [] && forall t :: t in ts ==> IsToken(t)
    ensures Split(Join(ts)) == ts
  {
    if |ts| == 1 {
      SplitToken(ts[0]);
    } else {
      var t, rest := ts[0], Join(ts[1..]);
      var s := t + "," + rest;
      JoinStartsWithToken(ts[1..]);
      assert s[|t|] == ',';
      assert IsToken(t) by { assert ts[0] in ts; }
      forall k | 0 <= k < |t| ensures !IsSeparator(s[k]) {
        assert s[k] == t[k];
      }
      FieldEndIs(s, 0, |t|);
      assert s[|t| + 1] == rest[0];
      assert SeparatorEnd(s, |t|) == |t| + 1;
      assert s[..|t|] == t && s[|t| + 1..] == rest;
      SplitJoin(ts[1..]);
    }
  }

  /** Joining a list of tokens with commas and parsing it gives the list back. */
  lemma ParseJoin(ts: seq<string>)
    requires forall t :: t in ts ==> IsToken(t)
    ensures Parse(Join(ts)) == ts
  {
    if ts == [] {
      assert Split("") == [""];
    } else {
      SplitJoin(ts);
      TrimAllFields(ts);
      FilterIdentity(ts, NonEmpty);
    }
  }

  lemma {:induction false} SplitAllTokens(ts: seq<string>)
    requires forall t :: t in ts ==> IsToken(t)
    ensures SplitAll(ts) == ts
  {
    if ts != [] {
      SplitToken(ts[0]);
      SplitAllTokens(ts[1..]);
    }
  }

  /** Sanitising an already sanitised list changes nothing. */
  lemma SanitizeIdempotent(cs: seq<string>)
    ensures Sanitize(Sanitize(cs)) == Sanitize(cs)
  {
    SanitizeYieldsTokens(cs);
    SplitAllTokens(Sanitize(cs));
    FilterIdentity(Sanitize(cs), NonEmpty);
  }
}
