/** Cutting UTF-8 text at a character boundary, with a marker that says how much went. */
module Utf8Truncation {
  import opened Sequences
  import opened Conversation

  // ---- UTF-8, section 4 of RFC 3629 ----

  predicate IsContinuation(b: byte) { 128 <= b < 192 }

  /** Length of the character a byte leads, 0 if it leads none. */
  function CharLength(lead: byte): nat {
    if lead < 0x80 then 1
    else if 0xC2 <= lead <= 0xDF then 2
    else if 0xE0 <= lead <= 0xEF then 3
    else if 0xF0 <= lead <= 0xF4 then 4
    else 0
  }

  predicate StartsWithChar(s: Bytes) {
    && s != []
    && 0 < CharLength(s[0]) <= |s|
    && (forall i | 1 <= i < CharLength(s[0]) :: IsContinuation(s[i]))
    && (s[0] == 0xE0 ==> 0xA0 <= s[1])
    && (s[0] == 0xED ==> s[1] < 0xA0)
    && (s[0] == 0xF0 ==> 0x90 <= s[1])
    && (s[0] == 0xF4 ==> s[1] < 0x90)
  }

  predicate ValidUtf8(s: Bytes) {
    s == [] || (StartsWithChar(s) && ValidUtf8(s[CharLength(s[0])..]))
  }

  predicate IsAscii(s: Bytes) {
    forall i | 0 <= i < |s| :: s[i] < 0x80
  }

  lemma {:induction false} AsciiIsValid(s: Bytes)
    requires IsAscii(s)
    ensures ValidUtf8(s)
  {
    if s != [] {
      AsciiIsValid(s[1..]);
    }
  }

  lemma CharInConcat(a: Bytes, b: Bytes)
    requires StartsWithChar(a)
    ensures StartsWithChar(a + b) && (a + b)[0] == a[0]
    ensures (a + b)[CharLength(a[0])..] == a[CharLength(a[0])..] + b
  {
    hide IsContinuation;
    DropOfConcat(a, b, CharLength(a[0]));
    assert forall i | 0 <= i < |a| :: (a + b)[i] == a[i];
  }

  lemma {:induction false} ValidConcat(a: Bytes, b: Bytes)
    requires ValidUtf8(a) && ValidUtf8(b)
    ensures ValidUtf8(a + b)
  {
    if a == [] {
      assert a + b == b;
    } else {
      CharInConcat(a, b);
      ValidConcat(a[CharLength(a[0])..], b);
    }
  }

  /** str::is_char_boundary. */
  predicate IsCharBoundary(s: Bytes, i: nat)
    requires i <= |s|
  {
    i == 0 || i == |s| || !IsContinuation(s[i])
  }

  lemma CharInPrefix(s: Bytes, i: nat)
    requires StartsWithChar(s) && CharLength(s[0]) <= i <= |s|
    ensures StartsWithChar(s[..i]) && s[..i][0] == s[0]
    ensures s[..i][CharLength(s[0])..] == s[CharLength(s[0])..][..i - CharLength(s[0])]
  {
    hide IsContinuation;
    assert forall k | 0 <= k < i :: s[..i][k] == s[k];
  }

  /** Both sides of a boundary are well-formed. */
  lemma {:induction false} BoundarySplits(s: Bytes, i: nat)
    requires ValidUtf8(s) && i <= |s| && IsCharBoundary(s, i)
    ensures ValidUtf8(s[..i]) && ValidUtf8(s[i..])
  {
    if 0 < i < |s| {
      var n := CharLength(s[0]);
      var rest := s[n..];
      assert i >= n && IsCharBoundary(rest, i - n);
      BoundarySplits(rest, i - n);
      assert rest[i - n..] == s[i..];
      CharInPrefix(s, i);
    } else if i == |s| {
      assert s[..i] == s;
    }
  }

  /** A boundary is never more than three bytes away. */
  lemma {:induction false} BoundaryNearby(s: Bytes, i: nat)
    requires ValidUtf8(s) && i <= |s|
    ensures exists b | i - 3 <= b <= i :: 0 <= b && IsCharBoundary(s, b)
  {
    if i > 0 {
      var n := CharLength(s[0]);
      if i < n {
        assert IsCharBoundary(s, 0);
      } else {
        BoundaryNearby(s[n..], i - n);
        var b :| i - n - 3 <= b <= i - n && 0 <= b && IsCharBoundary(s[n..], b);
        assert IsCharBoundary(s, b + n) by {
          if b == 0 && n < |s| {
            assert StartsWithChar(s[n..]);
          }
        }
      }
    } else {
      assert IsCharBoundary(s, 0);
    }
  }

  /** The largest boundary at or below i. */
  function BoundaryBelow(s: Bytes, i: nat): (r: nat)
    requires i <= |s|
    ensures r <= i && IsCharBoundary(s, r)
    ensures forall b | r < b <= i :: !IsCharBoundary(s, b)
  {
    if IsCharBoundary(s, i) then i else BoundaryBelow(s, i - 1)
  }

  // ---- the marker ----

  function Digits(n: nat): (r: Bytes)
    ensures |r| >= 1 && IsAscii(r)
  {
    if n < 10 then [48 + n] else Digits(n / 10) + [48 + n % 10]
  }

  /** The number that decimal digits stand for. */
  function NumberOf(digits: Bytes): int {
    if digits == [] then 0 else NumberOf(digits[..|digits| - 1]) * 10 + digits[|digits| - 1] - 48
  }

  /** Digits are decimal digits of the number, without leading zeros. */
  lemma {:induction false} DigitsStandForNumber(n: nat)
    ensures NumberOf(Digits(n)) == n
    ensures forall d | d in Digits(n) :: 48 <= d <= 57
    ensures n > 0 ==> Digits(n)[0] != 48
  {
    if n >= 10 {
      DigitsStandForNumber(n / 10);
      assert Digits(n)[..|Digits(n)| - 1] == Digits(n / 10);
    } else {
      assert [48 + n][..0] == [];
      assert NumberOf([]) == 0;
    }
  }

  function PowerOfTen(k: nat): nat {
    if k == 0 then 1 else 10 * PowerOfTen(k - 1)
  }

  lemma {:induction false} DigitCountIff(n: nat, k: nat)
    requires k >= 1
    ensures |Digits(n)| <= k <==> n < PowerOfTen(k)
    decreases k
  {
    if k > 1 && n >= 10 {
      DigitCountIff(n / 10, k - 1);
    } else if k > 1 {
      PowerGrows(k);
    }
  }

  lemma {:induction false} PowerGrows(k: nat)
    requires k >= 1
    ensures PowerOfTen(k) >= 10
  {
    if k > 1 {
      PowerGrows(k - 1);
    }
  }

  // The marker's two halves have their real lengths and are ASCII; their wording is left open.
  type MarkerHead = s: Bytes | |s| == 16 && IsAscii(s) witness seq(16, i => 32)
  type MarkerTail = s: Bytes | |s| == 40 && IsAscii(s) witness seq(40, i => 32)

  const MARKER_HEAD: MarkerHead
  const MARKER_TAIL: MarkerTail
  const MARKER_RESERVE := 64

  function Marker(dropped: nat): (r: Bytes)
    ensures |r| == 56 + |Digits(dropped)| && IsAscii(r)
  {
    MARKER_HEAD + Digits(dropped) + MARKER_TAIL
  }

  function Min(a: nat, b: nat): nat { if a < b then a else b }

  function CutPoint(s: Bytes, maxBytes: nat): nat
    requires maxBytes < |s|
  {
    BoundaryBelow(s, if maxBytes < MARKER_RESERVE then 0 else maxBytes - MARKER_RESERVE)
  }

  function Truncated(s: Bytes, maxBytes: nat): Option<Bytes> {
    if |s| <= maxBytes then None
    else
      var end := CutPoint(s, maxBytes);
      Some(s[..end] + Marker(|s| - end))
  }

  method TruncateTextToBytes(s: Bytes, maxBytes: nat) returns (r: Option<Bytes>)
    ensures r == Truncated(s, maxBytes)
  {
    if |s| <= maxBytes {
      return None;
    }
    var keep := if maxBytes < MARKER_RESERVE then 0 else maxBytes - MARKER_RESERVE;
    var end: nat := Min(keep, |s|);
    while end > 0 && !IsCharBoundary(s, end)
      invariant end <= |s| && BoundaryBelow(s, end) == BoundaryBelow(s, keep)
    {
      end := end - 1;
    }
    return Some(s[..end] + Marker(|s| - end));
  }

  // ---- what the cut guarantees ----

  /**
   * A text over the limit becomes its longest prefix that ends at a character boundary and leaves 64 bytes, and behind
   * it the marker with the number of bytes that went.
   */
  lemma TruncatedIsPrefixAndMarker(s: Bytes, maxBytes: nat) returns (end: nat)
    requires maxBytes < |s|
    ensures end <= (if maxBytes < 64 then 0 else maxBytes - 64)
    ensures Truncated(s, maxBytes) == Some(s[..end] + (MARKER_HEAD + Digits(|s| - end) + MARKER_TAIL))
    ensures end == 0 || !(128 <= s[end] < 192)
    ensures forall b | end < b <= maxBytes - 64 :: 128 <= s[b] < 192
  {
    hide Digits, BoundaryBelow;
    end := CutPoint(s, maxBytes);
    forall b | end < b <= maxBytes - 64 ensures 128 <= s[b] < 192 {
      assert !IsCharBoundary(s, b);
    }
  }

  lemma CutIsClose(s: Bytes, maxBytes: nat)
    requires ValidUtf8(s) && maxBytes < |s|
    ensures maxBytes - MARKER_RESERVE - 3 <= CutPoint(s, maxBytes) <= |s| && IsCharBoundary(s, CutPoint(s, maxBytes))
    ensures MARKER_RESERVE <= maxBytes ==> CutPoint(s, maxBytes) <= maxBytes - MARKER_RESERVE
  {
    BoundaryNearby(s, if maxBytes < MARKER_RESERVE then 0 else maxBytes - MARKER_RESERVE);
  }

  /** The cut falls on a character boundary at most three bytes below the reserve point, and the
      result is well-formed text that starts with a prefix of the original. */
  lemma TruncatedIsValid(s: Bytes, maxBytes: nat)
    requires ValidUtf8(s) && maxBytes < |s|
    ensures var end := CutPoint(s, maxBytes);
      && maxBytes - MARKER_RESERVE - 3 <= end
      && (MARKER_RESERVE <= maxBytes ==> end <= maxBytes - MARKER_RESERVE)
      && ValidUtf8(s[..end]) && ValidUtf8(s[end..])
      && ValidUtf8(Truncated(s, maxBytes).value)
  {
    hide ValidUtf8, IsCharBoundary, CutPoint, Marker, IsAscii;
    var end := CutPoint(s, maxBytes);
    CutIsClose(s, maxBytes);
    BoundarySplits(s, end);
    AsciiIsValid(Marker(|s| - end));
    ValidConcat(s[..end], Marker(|s| - end));
  }

  /** The result fits the limit exactly when the room behind the cut takes 56 bytes and the digits
      of the dropped count; below 57 bytes of limit it never does. */
  lemma TruncatedFitsIff(s: Bytes, maxBytes: nat)
    requires maxBytes < |s|
    ensures var end := CutPoint(s, maxBytes);
      |Truncated(s, maxBytes).value| <= maxBytes <==>
      end + 56 < maxBytes && |s| - end < PowerOfTen(maxBytes - 56 - end)
  {
    var end := CutPoint(s, maxBytes);
    if end + 56 < maxBytes {
      DigitCountIff(|s| - end, maxBytes - 56 - end);
    }
  }

  lemma {:induction false} PowerMonotone(j: nat, k: nat)
    requires j <= k
    ensures PowerOfTen(j) <= PowerOfTen(k)
  {
    if j < k {
      PowerMonotone(j, k - 1);
    }
  }

  /** With the reserve in hand and fewer than 10^8 bytes dropped, the result always fits. */
  lemma TruncatedFits(s: Bytes, maxBytes: nat)
    requires MARKER_RESERVE <= maxBytes < |s|
    requires |s| - CutPoint(s, maxBytes) < 100_000_000
    ensures |Truncated(s, maxBytes).value| <= maxBytes
  {
    assert PowerOfTen(8) == 100_000_000 by {
      assert PowerOfTen(4) == 10_000;
    }
    PowerMonotone(8, maxBytes - 56 - CutPoint(s, maxBytes));
    TruncatedFitsIff(s, maxBytes);
  }
}
