/**
  generateRandomBluetoothId of client/src/lib/utils.ts: six pairs of
  upper-case hexadecimal digits separated by ':'. Each `Math.random()` call
  is one entry of `random`, a value in [0, 1); the twelve draws are used in
  order, two per pair.
 */
module BluetoothId {

  const HexChars: string := "0123456789ABCDEF"
  const IdLength: nat := 17

  /** `Math.floor(r * 16)` */
  function Draw(r: real): (d: nat)
    requires 0.0 <= r < 1.0
    ensures d < 16
    ensures d as real <= r * 16.0 < d as real + 1.0
  {
    (r * 16.0).Floor
  }

  predicate ValidDraws(random: seq<real>)
  {
    |random| == 12 && forall i :: 0 <= i < |random| ==> 0.0 <= random[i] < 1.0
  }

  /** The character at position `k`: a ':' after every pair, otherwise the
      hex digit of draw `2 * (k / 3) + k % 3`. */
  function IdChar(random: seq<real>, k: nat): char
    requires ValidDraws(random) && k < IdLength
  {
    if k % 3 == 2 then ':' else HexChars[Draw(random[2 * (k / 3) + k % 3])]
  }

  method GenerateRandomBluetoothId(random: seq<real>) returns (id: string)
    requires ValidDraws(random)
    ensures |id| == IdLength
    ensures forall k :: 0 <= k < |id| ==> id[k] == IdChar(random, k)
    ensures forall k :: 0 <= k < |id| ==> (id[k] == ':' <==> k in {2, 5, 8, 11, 14})
    ensures forall k :: 0 <= k < |id| && id[k] != ':' ==> id[k] in HexChars
  {
    id := "";
    for i := 0 to 6
      invariant |id| == if i == 6 then IdLength else 3 * i
      invariant forall k :: 0 <= k < |id| ==> id[k] == IdChar(random, k)
    {
      id := id + [HexChars[Draw(random[2 * i])]];
      id := id + [HexChars[Draw(random[2 * i + 1])]];
      if i < 5 {
        id := id + [':'];
      }
    }
    forall k | 0 <= k < |id| ensures id[k] == ':' <==> k in {2, 5, 8, 11, 14} {
      assert id[k] == IdChar(random, k);
    }
  }
}
