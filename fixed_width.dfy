/** Fixed-width unsigned integers as the stream classes write them: `w`
    bytes, least significant first. A character of a blob stands for one
    byte. */
module FixedWidth {

  function Pow256(w: nat): (r: nat)
    ensures r > 0
  {
    if w == 0 then 1 else 256 * Pow256(w - 1)
  }

  function EncodeUInt(n: nat, w: nat): (s: string)
    ensures |s| == w
  {
    if w == 0 then [] else [(n % 256) as char] + EncodeUInt(n / 256, w - 1)
  }

  function DecodeUInt(s: string): nat
  {
    if s == [] then 0 else (s[0] as int) + 256 * DecodeUInt(s[1..])
  }

  /** Every value that fits in `w` bytes reads back unchanged. */
  lemma {:induction false} DecodeEncode(n: nat, w: nat)
    requires n < Pow256(w)
    ensures DecodeUInt(EncodeUInt(n, w)) == n
  {
    if w > 0 {
      DecodeEncode(n / 256, w - 1);
      var s := EncodeUInt(n, w);
      assert s[0] as int == n % 256;
      assert s[1..] == EncodeUInt(n / 256, w - 1);
    }
  }
}
