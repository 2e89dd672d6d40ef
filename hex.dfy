/**
 * Base16 text (section 8 of RFC 4648) as Go's encoding/hex reads it and as
 * fmt's %x verb writes it: hex.DecodeString accepts digits of either case,
 * two per byte, and rejects an odd length or any other character.
 */
module Hex {
  import opened Wrappers
  import opened Library

  predicate IsHexDigit(c: char) {
    '0' <= c <= '9' || 'a' <= c <= 'f' || 'A' <= c <= 'F'
  }

  predicate AllHexDigits(s: string) {
    forall i :: 0 <= i < |s| ==> IsHexDigit(s[i])
  }

  function HexValue(c: char): (v: int)
    requires IsHexDigit(c)
    ensures 0 <= v < 16
  {
    if '0' <= c <= '9' then c as int - '0' as int
    else if 'a' <= c <= 'f' then c as int - 'a' as int + 10
    else c as int - 'A' as int + 10
  }

  /** hex.DecodeString: None stands for its error (odd length or invalid byte). */
  function DecodeString(s: string): (r: Option<seq<byte>>)
    ensures r.Some? <==> |s| % 2 == 0 && AllHexDigits(s)
    ensures r.Some? ==> 2 * |r.value| == |s|
  {
    if |s| % 2 == 1 then None else DecodePairs(s)
  }

  function DecodePairs(s: string): (r: Option<seq<byte>>)
    requires |s| % 2 == 0
    ensures r.Some? <==> AllHexDigits(s)
    ensures r.Some? ==> 2 * |r.value| == |s|
    decreases |s|
  {
    if s == [] then Some([])
    else if !IsHexDigit(s[0]) || !IsHexDigit(s[1]) then None
    else
      match DecodePairs(s[2..])
      case None =>
        assert !AllHexDigits(s) by {
          var i :| 0 <= i < |s[2..]| && !IsHexDigit(s[2..][i]);
          assert !IsHexDigit(s[i + 2]);
        }
        None
      case Some(rest) =>
        Some([(16 * HexValue(s[0]) + HexValue(s[1])) as byte] + rest)
  }

  function LowerHexDigit(d: int): (c: char)
    requires 0 <= d < 16
    ensures IsHexDigit(c) && HexValue(c) == d
  {
    if d < 10 then ('0' as int + d) as char else ('a' as int + d - 10) as char
  }

  /** fmt.Sprintf("%x", b) for a byte slice: two lower-case digits per byte. */
  function EncodeToString(b: seq<byte>): (s: string)
    ensures |s| == 2 * |b|
  {
    if b == [] then ""
    else [LowerHexDigit(b[0] as int / 16), LowerHexDigit(b[0] as int % 16)] + EncodeToString(b[1..])
  }

  /** Decoding what %x wrote gives the bytes back. */
  lemma {:induction false} DecodeEncode(b: seq<byte>)
    ensures DecodeString(EncodeToString(b)) == Some(b)
  {
    var s := EncodeToString(b);
    if b != [] {
      DecodeEncode(b[1..]);
      assert s[2..] == EncodeToString(b[1..]);
      assert DecodePairs(s[2..]) == Some(b[1..]);
      var x := b[0] as int;
      assert HexValue(s[0]) == x / 16 && HexValue(s[1]) == x % 16;
      assert (16 * (x / 16) + x % 16) as byte == b[0];
      assert DecodePairs(s) == Some([b[0]] + b[1..]);
      assert [b[0]] + b[1..] == b;
    }
  }
}
