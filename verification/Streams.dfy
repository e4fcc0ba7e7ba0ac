/** An output stream that takes some more bytes and then fails. */
module Streams {
  class Stream {
    var written: seq<char>
    var room: nat

    constructor (room: nat)
      ensures written == [] && this.room == room
    {
      written := [];
      this.room := room;
    }

    /** How many bytes the stream takes in all. */
    ghost function Size(): nat
      reads this
    {
      |written| + room
    }

    /** fputs, fputc and the line writer's calls: all of the text, or a failure after as much as there is room for. */
    method Put(text: seq<char>) returns (ok: bool)
      modifies this
      ensures ok ==> written == old(written) + text
      ensures old(written) <= written <= old(written) + text
      ensures Size() == old(Size()) && (!ok ==> room == 0)
    {
      ok := |text| <= room;
      var n := if ok then |text| else room;
      written := written + text[..n];
      room := room - n;
    }
  }
}
