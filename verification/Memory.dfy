/** Copying into buffers. */
module Memory {
  /** memcpy: text goes into out at position at; what stands in front of it stays. */
  method Copy<T>(out: array<T>, at: nat, text: seq<T>)
    requires at + |text| <= out.Length
    modifies out
    ensures out[..at + |text|] == old(out[..at]) + text
    ensures out[at + |text|..] == old(out[at + |text|..])
  {
    for i := 0 to |text|
      invariant out[..at + i] == old(out[..at]) + text[..i]
      invariant out[at + |text|..] == old(out[at + |text|..])
    {
      out[at + i] := text[i];
      assert text[..i + 1] == text[..i] + [text[i]];
    }
    assert text[..|text|] == text;
  }
}
