/** The string operations the modelled code takes from its standard libraries:
    prefixes and suffixes, splitting and joining, first and last occurrences,
    ASCII case folding. */
module Text {
  import opened Wrappers

  /** One byte of a Go string. */
  type Byte = c: char | c as int < 256 witness 'a'

  type Bytes = seq<Byte>

  /** The code points with the Unicode property White_Space. */
  predicate WhiteSpace(c: nat) {
    0x09 <= c <= 0x0D || 0x2000 <= c <= 0x200A ||
    c in {0x20, 0x85, 0xA0, 0x1680, 0x2028, 0x2029, 0x202F, 0x205F, 0x3000}
  }

  predicate HasSuffix(s: string, t: string) {
    |t| <= |s| && s[|s| - |t|..] == t
  }

  lemma SuffixAt(s: string, t: string, k: nat)
    requires HasSuffix(s, t) && k < |t|
    ensures s[|s| - |t| + k] == t[k]
  {
  }

  lemma NoSuffix(s: string, t: string, k: nat)
    requires k < |t|
    requires |t| <= |s| ==> s[|s| - |t| + k] != t[k]
    ensures !HasSuffix(s, t)
  {
  }

  function LowerChar(c: char): char {
    if 'A' <= c <= 'Z' then (c as int + 32) as char else c
  }

  /** ASCII lower case, which is how a case-folding disk compares names. */
  function Lower(s: string): string {
    seq(|s|, i requires 0 <= i < |s| => LowerChar(s[i]))
  }

  lemma LowerConcat(a: string, b: string)
    ensures Lower(a + b) == Lower(a) + Lower(b)
  {
  }

  /** Equal up to the case of the letters A to Z, and nothing else. */
  lemma CaseOnly(a: string, b: string)
    ensures Lower(a) == Lower(b) <==>
      |a| == |b| && forall i | 0 <= i < |a| ::
        || a[i] == b[i]
        || ('A' <= a[i] <= 'Z' && b[i] as int == a[i] as int + 32)
        || ('A' <= b[i] <= 'Z' && a[i] as int == b[i] as int + 32)
    ensures |Lower(a)| == |a| && forall i | 0 <= i < |a| :: !('A' <= Lower(a)[i] <= 'Z')
  {
    assert |Lower(a)| == |a| && |Lower(b)| == |b|;
    if Lower(a) == Lower(b) {
      assert forall i | 0 <= i < |a| :: Lower(a)[i] == LowerChar(a[i]) && Lower(b)[i] == LowerChar(b[i]);
    }
  }

  // ----- splitting and joining at one separator -----

  function Split(s: Bytes, sep: Byte): (parts: seq<Bytes>)
    ensures |parts| > 0
    ensures forall p | p in parts :: sep !in p
  {
    if s == [] then
      [[]]
    else
      var rest := Split(s[1..], sep);
      if s[0] == sep then [[]] + rest else [[s[0]] + rest[0]] + rest[1..]
  }

  function Join(parts: seq<Bytes>, sep: Byte): Bytes {
    if |parts| == 0 then []
    else if |parts| == 1 then parts[0]
    else parts[0] + [sep] + Join(parts[1..], sep)
  }

  lemma {:induction false} JoinSplit(s: Bytes, sep: Byte)
    ensures Join(Split(s, sep), sep) == s
  {
    if s == [] {
    } else {
      var rest := Split(s[1..], sep);
      JoinSplit(s[1..], sep);
      if s[0] == sep {
        assert ([[]] + rest)[1..] == rest;
      } else {
        assert ([[s[0]] + rest[0]] + rest[1..])[1..] == rest[1..];
      }
    }
  }

  lemma {:induction false} SplitPiece(p: Bytes, sep: Byte)
    requires sep !in p
    ensures Split(p, sep) == [p]
  {
    if p == [] {
    } else {
      SplitPiece(p[1..], sep);
      assert p[0] != sep && [p[0]] + p[1..] == p;
    }
  }

  lemma {:induction false} SplitAfterPiece(p: Bytes, s: Bytes, sep: Byte)
    requires sep !in p
    ensures Split(p + [sep] + s, sep) == [p] + Split(s, sep)
  {
    var whole := p + [sep] + s;
    if p == [] {
      assert whole[1..] == s;
    } else {
      SplitAfterPiece(p[1..], s, sep);
      assert whole[1..] == p[1..] + [sep] + s;
      assert whole[0] == p[0] != sep && [p[0]] + p[1..] == p;
      assert ([p[1..]] + Split(s, sep))[1..] == Split(s, sep);
    }
  }

  lemma {:induction false} SplitJoin(parts: seq<Bytes>, sep: Byte)
    requires |parts| > 0
    requires forall p | p in parts :: sep !in p
    ensures Split(Join(parts, sep), sep) == parts
  {
    if |parts| == 1 {
      SplitPiece(parts[0], sep);
    } else {
      SplitJoin(parts[1..], sep);
      SplitAfterPiece(parts[0], Join(parts[1..], sep), sep);
    }
  }

  // ----- last occurrence of a byte, -1 when there is none -----

  function LastIndex(s: Bytes, c: Byte): (i: int)
    ensures -1 <= i < |s|
    ensures i >= 0 ==> s[i] == c
    ensures forall k | i < k < |s| :: s[k] != c
  {
    if s == [] then -1
    else if s[|s| - 1] == c then |s| - 1
    else LastIndex(s[..|s| - 1], c)
  }

  lemma LastIndexIs(s: Bytes, c: Byte, i: int)
    requires -1 <= i < |s|
    requires i >= 0 ==> s[i] == c
    requires forall k | i < k < |s| :: s[k] != c
    ensures LastIndex(s, c) == i
  {
  }

  // ----- first occurrence of a substring -----

  predicate OccursAt(s: string, t: string, i: nat) {
    i + |t| <= |s| && s[i..i + |t|] == t
  }

  ghost predicate Contains(s: string, t: string) {
    exists i: nat :: OccursAt(s, t, i)
  }

  ghost predicate FirstAt(s: string, t: string, i: nat) {
    OccursAt(s, t, i) && forall k: nat | k < i :: !OccursAt(s, t, k)
  }

  /** The position of the first occurrence of t in s. */
  function Find(s: string, t: string): (r: Option<nat>)
    ensures r.Some? ==> FirstAt(s, t, r.value)
    ensures r.None? ==> !Contains(s, t)
  {
    FindFrom(s, t, 0)
  }

  function FindFrom(s: string, t: string, from: nat): (r: Option<nat>)
    requires from <= |s|
    ensures r.Some? ==> from <= r.value && OccursAt(s, t, r.value)
    ensures r.Some? ==> forall k: nat | from <= k < r.value :: !OccursAt(s, t, k)
    ensures r.None? ==> forall k: nat | from <= k :: !OccursAt(s, t, k)
    decreases |s| - from
  {
    if OccursAt(s, t, from) then Some(from)
    else if from < |s| then FindFrom(s, t, from + 1)
    else None
  }

  lemma FindIs(s: string, t: string, i: nat)
    requires FirstAt(s, t, i)
    ensures Find(s, t) == Some(i)
  {
  }

  lemma FindNone(s: string, t: string)
    requires !Contains(s, t)
    ensures Find(s, t) == None
  {
  }
}
