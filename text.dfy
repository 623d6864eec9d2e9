/**
  Go strings as byte sequences, and the string operations the crawlers use:
  `strings.ReplaceAll`, `strings.Join` and the `truncate` helper of the feed
  reader. Go's `len` and slicing count bytes, so every string here is a
  sequence of bytes.
 */
module Text {

  newtype byte = x: int | 0 <= x < 256

  type Bytes = seq<byte>

  function Min(a: int, b: int): int
  {
    if a <= b then a else b
  }

  /** The bytes of an ASCII literal (its UTF-8 encoding). */
  function Ascii(s: string): (r: Bytes)
    requires forall i :: 0 <= i < |s| ==> s[i] as int < 128
    ensures |r| == |s|
    ensures forall i :: 0 <= i < |s| ==> r[i] as int == s[i] as int
  {
    seq(|s|, i requires 0 <= i < |s| => s[i] as int as byte)
  }

  /** `fmt.Sprintf("%d", n)` for a non-negative number: its decimal digits. */
  function Digits(n: nat): (r: Bytes)
    ensures |r| > 0
    ensures forall i :: 0 <= i < |r| ==> 48 <= r[i] <= 57
  {
    if n < 10 then [(48 + n) as byte] else Digits(n / 10) + [(48 + n % 10) as byte]
  }

  /** `fmt.Sprintf("%d", n)`: a minus sign for negative numbers, then the digits. */
  function Decimal(n: int): (r: Bytes)
    ensures |r| > 0
    ensures (r[0] == 45) <==> n < 0
    ensures n < 0 ==> r[1..] == Digits(-n)
    ensures n >= 0 ==> r == Digits(n)
  {
    if n < 0 then [45] + Digits(-n) else Digits(n)
  }

  /** The number a string of decimal digits denotes, read most significant digit first. */
  function DigitsValue(r: Bytes): int
  {
    if r == [] then 0 else DigitsValue(r[..|r| - 1]) * 10 + (r[|r| - 1] as int - 48)
  }

  /** The number a `%d` text denotes: an optional '-' and then digits. */
  function DecimalValue(r: Bytes): int
  {
    if r != [] && r[0] == 45 then -DigitsValue(r[1..]) else DigitsValue(r)
  }

  /** The digits of `n` denote `n`. */
  lemma {:induction false} DigitsRoundTrip(n: nat)
    ensures DigitsValue(Digits(n)) == n
  {
    if n >= 10 {
      DigitsRoundTrip(n / 10);
      var r := Digits(n);
      assert r[..|r| - 1] == Digits(n / 10);
    }
  }

  /** Reading back the `%d` text of `n` gives `n`, negative numbers included. */
  lemma DecimalRoundTrip(n: int)
    ensures DecimalValue(Decimal(n)) == n
  {
    if n < 0 {
      DigitsRoundTrip(-n);
    } else {
      DigitsRoundTrip(n);
    }
  }

  const Ellipsis: Bytes := [46, 46, 46]  // "..."

  // ---------------------------------------------------------------------------
  // strings.ReplaceAll

  /**
    Go's `strings.ReplaceAll(s, pat, rep)` for a non-empty `pat`: scanning
    from the left, every occurrence of `pat` that does not overlap an earlier
    replaced one is replaced by `rep`.
   */
  function ReplaceAll(s: Bytes, pat: Bytes, rep: Bytes): Bytes
    requires |pat| > 0
    decreases |s|
  {
    if |s| < |pat| then s
    else if s[..|pat|] == pat then rep + ReplaceAll(s[|pat|..], pat, rep)
    else [s[0]] + ReplaceAll(s[1..], pat, rep)
  }

  lemma ReplaceAllAtMatch(t: Bytes, pat: Bytes, rep: Bytes)
    requires |pat| > 0
    ensures ReplaceAll(pat + t, pat, rep) == rep + ReplaceAll(t, pat, rep)
  {
    assert (pat + t)[..|pat|] == pat;
    assert (pat + t)[|pat|..] == t;
  }

  lemma ReplaceAllAtOther(b: byte, t: Bytes, pat: Bytes, rep: Bytes)
    requires |pat| > 0 && b != pat[0]
    ensures ReplaceAll([b] + t, pat, rep) == [b] + ReplaceAll(t, pat, rep)
  {
    assert ([b] + t)[1..] == t;
    if |[b] + t| >= |pat| {
      assert ([b] + t)[..|pat|][0] == b;
    }
  }

  /** A text in which the pattern's first byte never occurs is left unchanged. */
  lemma {:induction false} ReplaceAllUntouched(s: Bytes, pat: Bytes, rep: Bytes)
    requires |pat| > 0 && pat[0] !in s
    ensures ReplaceAll(s, pat, rep) == s
  {
    if |s| >= |pat| {
      assert s[..|pat|][0] == s[0];
      ReplaceAllUntouched(s[1..], pat, rep);
      assert [s[0]] + s[1..] == s;
    }
  }

  /** Every byte of the result comes from the input or from the replacement. */
  lemma {:induction false} ReplaceAllBytes(s: Bytes, pat: Bytes, rep: Bytes, x: byte)
    requires |pat| > 0
    ensures x in ReplaceAll(s, pat, rep) ==> x in s || x in rep
  {
    if |s| >= |pat| {
      if s[..|pat|] == pat {
        ReplaceAllBytes(s[|pat|..], pat, rep, x);
        assert x in s[|pat|..] ==> x in s;
      } else {
        ReplaceAllBytes(s[1..], pat, rep, x);
        assert x in s[1..] ==> x in s;
      }
    }
  }

  /**
    Nothing but occurrences of `pat` is changed: when none of the
    replacement's bytes occur in the input, replacing `rep` back by `pat`
    recovers the input.
   */
  lemma {:induction false} ReplaceAllInverse(s: Bytes, pat: Bytes, rep: Bytes)
    requires |pat| > 0 && |rep| > 0
    requires forall i :: 0 <= i < |s| ==> s[i] !in rep
    ensures ReplaceAll(ReplaceAll(s, pat, rep), rep, pat) == s
  {
    if |s| < |pat| {
      ReplaceAllUntouched(s, rep, pat);
    } else if s[..|pat|] == pat {
      var t := s[|pat|..];
      ReplaceAllInverse(t, pat, rep);
      ReplaceAllAtMatch(ReplaceAll(t, pat, rep), rep, pat);
      assert s == pat + t;
    } else {
      var t := s[1..];
      ReplaceAllInverse(t, pat, rep);
      assert s[0] != rep[0];
      ReplaceAllAtOther(s[0], ReplaceAll(t, pat, rep), rep, pat);
      assert s == [s[0]] + t;
    }
  }

  /** The first byte of a replaced text is the replacement's first byte, or the input's. */
  lemma ReplaceAllFirst(t: Bytes, pat: Bytes, rep: Bytes)
    requires |pat| > 0 && |t| > 0 && |rep| > 0
    ensures |ReplaceAll(t, pat, rep)| > 0
    ensures ReplaceAll(t, pat, rep)[0] == t[0] || ReplaceAll(t, pat, rep)[0] == rep[0]
  {
  }

  /** `pat` occurs in `r` starting at index `i`. */
  predicate MatchesAt(r: Bytes, i: int, pat: Bytes)
  {
    0 <= i && i + |pat| <= |r| && r[i..i + |pat|] == pat
  }

  /**
    No occurrence of a two-byte pattern survives its replacement by a single
    byte that is neither of the pattern's bytes: a leftmost scan cannot leave
    one behind, not even straddling a replaced one.
   */
  lemma {:induction false} ReplaceAllLeavesNoPair(s: Bytes, pat: Bytes, c: byte)
    requires |pat| == 2 && c != pat[0] && c != pat[1]
    ensures forall i :: !MatchesAt(ReplaceAll(s, pat, [c]), i, pat)
  {
    var r := ReplaceAll(s, pat, [c]);
    if |s| >= 2 {
      if s[..2] == pat {
        var t := ReplaceAll(s[2..], pat, [c]);
        ReplaceAllLeavesNoPair(s[2..], pat, c);
        assert r == [c] + t;
        forall i | 0 <= i < |r| - 1
          ensures !MatchesAt(r, i, pat)
        {
          if i == 0 {
            assert r[i..i + 2][0] == c;
          } else {
            assert r[i..i + 2] == t[i - 1..i + 1];
            assert !MatchesAt(t, i - 1, pat);
          }
        }
      } else {
        var t := ReplaceAll(s[1..], pat, [c]);
        ReplaceAllLeavesNoPair(s[1..], pat, c);
        ReplaceAllFirst(s[1..], pat, [c]);
        assert r == [s[0]] + t;
        forall i | 0 <= i < |r| - 1
          ensures !MatchesAt(r, i, pat)
        {
          if i == 0 {
            assert r[i..i + 2] == [s[0], t[0]];
            assert s[..2] == [s[0], s[1]];
          } else {
            assert r[i..i + 2] == t[i - 1..i + 1];
            assert !MatchesAt(t, i - 1, pat);
          }
        }
      }
    }
  }

  /** `s` with every occurrence of the byte `b` deleted. */
  function Without(s: Bytes, b: byte): (r: Bytes)
    ensures b !in r
    ensures multiset(r) == multiset(s)[b := 0]
  {
    if s == [] then []
    else
      assert s == [s[0]] + s[1..];
      (if s[0] == b then [] else [s[0]]) + Without(s[1..], b)
  }

  /** Replacing a one-byte pattern by nothing deletes that byte everywhere. */
  lemma {:induction false} ReplaceByteByNothing(s: Bytes, b: byte)
    ensures ReplaceAll(s, [b], []) == Without(s, b)
  {
    if s != [] {
      ReplaceByteByNothing(s[1..], b);
      if s[0] == b {
        assert s[..1] == [b];
      } else {
        assert s[..1] != [b];
      }
    }
  }

  lemma {:induction false} WithoutAbsent(s: Bytes, b: byte)
    requires b !in s
    ensures Without(s, b) == s
  {
    if s != [] {
      WithoutAbsent(s[1..], b);
    }
  }

  // ---------------------------------------------------------------------------
  // strings.Join

  /** Go's `strings.Join`: the elements with `sep` between consecutive ones. */
  function Join(elems: seq<Bytes>, sep: Bytes): Bytes
  {
    if |elems| == 0 then []
    else if |elems| == 1 then elems[0]
    else elems[0] + sep + Join(elems[1..], sep)
  }

  function TotalLength(elems: seq<Bytes>): nat
  {
    if elems == [] then 0 else |elems[0]| + TotalLength(elems[1..])
  }

  /** A join of k >= 1 elements holds their bytes and exactly k - 1 separators. */
  lemma {:induction false} JoinLength(elems: seq<Bytes>, sep: Bytes)
    requires |elems| > 0
    ensures |Join(elems, sep)| == TotalLength(elems) + (|elems| - 1) * |sep|
  {
    if |elems| > 1 {
      JoinLength(elems[1..], sep);
    } else {
      assert elems[1..] == [];
    }
  }

  // ---------------------------------------------------------------------------
  // truncate (go-collector/main.go)

  /**
    `truncate(s, max)`: `s` itself when it fits in `max` bytes, otherwise its
    first `max` bytes followed by "...". A negative `max` makes the slice
    panic, so it is excluded.
   */
  function Truncate(s: Bytes, max: int): (r: Bytes)
    requires max >= 0
    ensures |s| <= max ==> r == s
    ensures |s| > max ==> |r| == max + 3 && r[max..] == Ellipsis
    ensures |r| <= max + 3
    ensures r[..Min(|s|, max)] == s[..Min(|s|, max)]
  {
    if |s| <= max then s else s[..max] + Ellipsis
  }

  /** Truncating an already truncated text changes nothing. */
  lemma TruncateIdempotent(s: Bytes, max: int)
    requires max >= 0
    ensures Truncate(Truncate(s, max), max) == Truncate(s, max)
  {
    if |s| > max {
      assert (s[..max] + Ellipsis)[..max] == s[..max];
    }
  }
}
