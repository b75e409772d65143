/** The few Python string built-ins the message handler relies on: `str.strip`
    (with the whitespace set of `str.isspace`), the substring test `k in s` and
    `sep.join(parts)`.
    Strings are sequences of Unicode code points, as Python's `str` is. */
module Text {

  /** Python's `str.isspace` on one code point: the characters whose
      bidirectional class is WS, B or S, or whose category is Zs. */
  predicate IsSpace(c: char) {
    || c == ' '
    || ('\t' <= c <= '\r')
    || ('\U{1C}' <= c <= '\U{1F}')
    || c == '\U{85}'
    || c == '\U{A0}'
    || c == '\U{1680}'
    || ('\U{2000}' <= c <= '\U{200A}')
    || c == '\U{2028}'
    || c == '\U{2029}'
    || c == '\U{202F}'
    || c == '\U{205F}'
    || c == '\U{3000}'
  }

  /** Every code point of `s[lo..hi]` is whitespace. */
  ghost predicate SpaceBetween(s: string, lo: int, hi: int) {
    forall i | lo <= i < hi && 0 <= i < |s| :: IsSpace(s[i])
  }

  /** Where `s.lstrip()` starts: the first index at or after `lo` that is not whitespace. */
  function StripStart(s: string, lo: nat): (k: nat)
    requires lo <= |s|
    ensures lo <= k <= |s|
    decreases |s| - lo
  {
    if lo == |s| || !IsSpace(s[lo]) then lo else StripStart(s, lo + 1)
  }

  /** Where `s.rstrip()` ends: the last index, down to `lo`, that follows a non-whitespace code point. */
  function StripEnd(s: string, lo: nat, hi: nat): (j: nat)
    requires lo <= hi <= |s|
    ensures lo <= j <= hi
    decreases hi - lo
  {
    if hi == lo || !IsSpace(s[hi - 1]) then hi else StripEnd(s, lo, hi - 1)
  }

  /** `s.strip()`: `s` with all leading and trailing whitespace removed. */
  function Strip(s: string): (r: string)
    ensures |r| <= |s|
  {
    var k := StripStart(s, 0);
    s[k..StripEnd(s, k, |s|)]
  }

  /** `StripStart` skips exactly the run of whitespace at `lo`. */
  lemma {:induction false} StripStartSkipsSpace(s: string, lo: nat)
    requires lo <= |s|
    ensures var k := StripStart(s, lo); SpaceBetween(s, lo, k) && (k == |s| || !IsSpace(s[k]))
    decreases |s| - lo
  {
    if lo < |s| && IsSpace(s[lo]) {
      StripStartSkipsSpace(s, lo + 1);
    }
  }

  /** `StripEnd` drops exactly the run of whitespace that ends at `hi`. */
  lemma {:induction false} StripEndDropsSpace(s: string, lo: nat, hi: nat)
    requires lo <= hi <= |s|
    ensures var j := StripEnd(s, lo, hi); SpaceBetween(s, j, hi) && (j == lo || !IsSpace(s[j - 1]))
    decreases hi - lo
  {
    if hi > lo && IsSpace(s[hi - 1]) {
      StripEndDropsSpace(s, lo, hi - 1);
    }
  }

  /** What `s.strip()` is: empty exactly when `s` is all whitespace; otherwise
      it neither starts nor ends with whitespace; and it is the middle of `s`
      between a leading and a trailing run of whitespace. */
  lemma StripTrims(s: string)
    ensures Strip(s) == [] <==> SpaceBetween(s, 0, |s|)
    ensures Strip(s) != [] ==> !IsSpace(Strip(s)[0]) && !IsSpace(Strip(s)[|Strip(s)| - 1])
    ensures var k := StripStart(s, 0); var r := Strip(s);
      && k + |r| <= |s|
      && r == s[k..k + |r|]
      && SpaceBetween(s, 0, k)
      && SpaceBetween(s, k + |r|, |s|)
  {
    var k := StripStart(s, 0);
    StripStartSkipsSpace(s, 0);
    StripEndDropsSpace(s, k, |s|);
  }

  /** `k` occurs in `s` starting at index `i`. */
  ghost predicate OccursAt(s: string, k: string, i: int) {
    0 <= i && i + |k| <= |s| && s[i..i + |k|] == k
  }

  /** `k` is a prefix of `s`, compared code point by code point. */
  predicate IsPrefix(k: string, s: string)
    decreases |k|
  {
    |k| <= |s| && (k == [] || (k[0] == s[0] && IsPrefix(k[1..], s[1..])))
  }

  /** `IsPrefix` is the prefix relation on sequences. */
  lemma {:induction false} IsPrefixIff(k: string, s: string)
    ensures IsPrefix(k, s) <==> |k| <= |s| && s[..|k|] == k
    decreases |k|
  {
    if k != [] && |k| <= |s| {
      IsPrefixIff(k[1..], s[1..]);
      assert s[..|k|] == [s[0]] + s[1..][..|k| - 1];
      assert k == [k[0]] + k[1..];
    }
  }

  /** Python's substring test `k in s`: the empty string is in every string,
      and nothing longer than `s` is in `s`. */
  function Contains(s: string, k: string): (r: bool)
    ensures k == [] ==> r
    ensures r ==> |k| <= |s|
    decreases |s|
  {
    if |k| > |s| then false
    else if IsPrefix(k, s) then true
    else Contains(s[1..], k)
  }

  /** `Contains` agrees with the definition of a substring: some position holds `k`. */
  lemma {:induction false} ContainsIff(s: string, k: string)
    ensures Contains(s, k) <==> exists i :: OccursAt(s, k, i)
    decreases |s|
  {
    IsPrefixIff(k, s);
    if |k| > |s| {
      forall i ensures !OccursAt(s, k, i) { }
    } else if IsPrefix(k, s) {
      assert OccursAt(s, k, 0);
    } else {
      ContainsIff(s[1..], k);
      if Contains(s[1..], k) {
        var i :| OccursAt(s[1..], k, i);
        assert s[i + 1..i + 1 + |k|] == s[1..][i..i + |k|];
        assert OccursAt(s, k, i + 1);
      } else {
        forall i | OccursAt(s, k, i) ensures false {
          if i > 0 {
            assert s[1..][i - 1..i - 1 + |k|] == s[i..i + |k|];
            assert OccursAt(s[1..], k, i - 1);
          }
        }
      }
    }
  }

  /** Python's `sep.join(parts)`: the joined string holds every part and one
      separator between each two. */
  function Join(parts: seq<string>, sep: string): (r: string)
    ensures |r| + (if parts == [] then 0 else |sep|) == TotalLength(parts) + |parts| * |sep|
  {
    if |parts| == 0 then ""
    else if |parts| == 1 then parts[0]
    else parts[0] + sep + Join(parts[1..], sep)
  }

  /** Joining one more part adds the separator and the part at the end. */
  lemma {:induction false} JoinAppend(parts: seq<string>, x: string, sep: string)
    ensures Join(parts + [x], sep) == if parts == [] then x else Join(parts, sep) + sep + x
    decreases |parts|
  {
    if |parts| >= 2 {
      assert (parts + [x])[1..] == parts[1..] + [x];
      JoinAppend(parts[1..], x, sep);
    }
  }

  /** Total length of a sequence of strings. */
  function TotalLength(parts: seq<string>): nat {
    if parts == [] then 0 else |parts[0]| + TotalLength(parts[1..])
  }

  /** A concatenation ends with its second part. */
  lemma EndsWith(prefix: string, x: string)
    ensures (prefix + x)[|prefix + x| - |x|..] == x
  {
    assert (prefix + x)[|prefix|..] == x;
  }
}
