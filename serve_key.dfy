/** The server's key commands show keys through their own `maskKey`, a
    second copy of the shared `MaskKey`. */
module ServeKey {
  import WsctlCommon

  /** `maskKey`: a key of at most 14 bytes is shown as it is; a longer one
      as its first 10 bytes, "...", and its last 4 bytes. */
  function MaskKey(key: seq<WsctlCommon.byte>): (r: seq<WsctlCommon.byte>)
    ensures |key| <= 14 ==> r == key
    ensures |key| > 14 ==> |r| == 17 && r[..10] == key[..10] && r[13..] == key[|key| - 4..]
  {
    if |key| <= 14 then key
    else key[..10] + [46, 46, 46] + key[|key| - 4..]
  }

  /** The two copies agree on every key. */
  lemma AgreesWithCommon(key: seq<WsctlCommon.byte>)
    ensures MaskKey(key) == WsctlCommon.MaskKey(key)
  {
  }
}
