/** Fixed-size buffers filled from the front. */
module Buffers {
  /** memcpy(buffer + at, items, |items|) */
  method CopyAt<T>(buffer: array<T>, at: nat, items: seq<T>)
    requires at + |items| <= buffer.Length
    modifies buffer
    ensures buffer[..at + |items|] == old(buffer[..at]) + items
    ensures buffer[at + |items|..] == old(buffer[at + |items|..])
  {
    for i := 0 to |items|
      invariant buffer[..at + i] == old(buffer[..at]) + items[..i]
      invariant buffer[at + i..] == old(buffer[at + i..])
    {
      buffer[at + i] := items[i];
    }
  }
}
