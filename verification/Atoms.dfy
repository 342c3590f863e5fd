/** The record that an ordered index files: one 64-byte line of simulated memory. */
module Atoms {
  import opened Words

  const ATOM_DATA_SIZE := 64

  type Line = s: seq<Byte> | |s| == ATOM_DATA_SIZE witness seq(ATOM_DATA_SIZE, _ => 0)

  class Atom {
    const key: nat
    var size: int
    // The array embedded in the C record.
    var data: Line

    constructor (key: nat, data: Line)
      ensures this.key == key && size == 64 && this.data == data
    {
      this.key := key;
      this.data := data;
      size := 64;
    }
  }
}
