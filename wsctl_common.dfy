/** Helpers shared by the `wsctl` commands: how an API key is shown. Keys
    are handled as the bytes of their text, as Go's string slicing does. */
module WsctlCommon {

  newtype byte = x: int | 0 <= x < 256

  /** The three full stops that replace the hidden part of a key. */
  const Ellipsis: seq<byte> := [46, 46, 46]

  /** `MaskKey`: a key of at most 14 bytes is shown as it is; a longer one
      as its first 10 bytes, "...", and its last 4 bytes. */
  function MaskKey(key: seq<byte>): (r: seq<byte>)
    ensures |key| <= 14 ==> r == key
    ensures |key| > 14 ==> |r| == 17
    ensures |key| > 14 ==> r[..10] == key[..10] && r[10..13] == Ellipsis && r[13..] == key[|key| - 4..]
    ensures |r| <= 17
  {
    if |key| <= 14 then key
    else key[..10] + Ellipsis + key[|key| - 4..]
  }

  /** What is hidden cannot be seen: two long keys of the same length that
      agree on their first 10 and last 4 bytes are shown alike, whatever
      lies between. */
  lemma MaskHidesMiddle(k1: seq<byte>, k2: seq<byte>)
    requires |k1| == |k2| > 14
    requires k1[..10] == k2[..10] && k1[|k1| - 4..] == k2[|k2| - 4..]
    ensures MaskKey(k1) == MaskKey(k2)
  {
  }

  /** Masking a masked key changes nothing. */
  lemma MaskIdempotent(key: seq<byte>)
    ensures MaskKey(MaskKey(key)) == MaskKey(key)
  {
    var r := MaskKey(key);
    if |key| > 14 {
      assert r == r[..10] + r[10..13] + r[13..];
    }
  }
}
