/** An opened binary file (`open(path, "rb")`) as the decoder uses it: fixed contents and a
    cursor that `seek`, `tell` and `read` work on. The contents never change; only the cursor does. */
module BinaryFile {

  /** One byte of the file. */
  type u8 = x: int | 0 <= x < 256

  function Min(a: nat, b: nat): nat {
    if a <= b then a else b
  }

  /** Where a `read` from `pos` that comes back short leaves the cursor: at the end of the file,
      or still at `pos` when that is already past the end. */
  function ShortReadEnd(data: seq<u8>, pos: nat): nat {
    if pos < |data| then |data| else pos
  }

  /** The bytes `read(n)` returns when the cursor is at `pos`: up to `n` of them, fewer near the
      end of the file, none at or past it. */
  function Window(data: seq<u8>, pos: nat, n: nat): (chunk: seq<u8>)
    ensures |chunk| <= n
    ensures pos + n <= |data| ==> chunk == data[pos..pos + n]
    ensures n > 0 ==> (|chunk| == n <==> pos + n <= |data|)
  {
    data[Min(pos, |data|)..Min(pos + n, |data|)]
  }

  class LibFile {
    const data: seq<u8>
    var pos: nat

    /** The file opened for reading, cursor at the start. */
    constructor Open(contents: seq<u8>)
      ensures data == contents && pos == 0
    {
      data := contents;
      pos := 0;
    }

    /** `seek(p)`: any non-negative position, also past the end of the file. */
    method Seek(p: nat)
      modifies this
      ensures pos == p
    {
      pos := p;
    }

    /** `tell()`. */
    method Tell() returns (p: nat)
      ensures p == pos
    {
      p := pos;
    }

    /** `read(n)`: returns what is there and moves the cursor past what it returned. */
    method Read(n: nat) returns (chunk: seq<u8>)
      modifies this
      ensures chunk == Window(data, old(pos), n)
      ensures pos == old(pos) + |chunk|
    {
      chunk := Window(data, pos, n);
      pos := pos + |chunk|;
    }
  }
}
