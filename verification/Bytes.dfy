/** Results, bytes and packets: the vocabulary shared by every other module. */
module Bytes {

  /** A value, or the code of the `nd::Error` that was thrown. */
  datatype Result<+T> = Ok(value: T) | Err(code: string) {
    predicate IsFailure() { Err? }

    function PropagateFailure<U>(): Result<U>
      requires Err?
    {
      Err(code)
    }

    function Extract(): T
      requires Ok?
    {
      value
    }
  }

  datatype Option<+T> = None | Some(value: T)

  const MALFORMED := "DNS_MALFORMED"

  type byte = x: int | 0 <= x < 256

  type Packet = seq<byte>

  /** The big-endian 16-bit field at `at`. */
  function Word(p: Packet, at: nat): (w: nat)
    requires at + 2 <= |p|
    ensures w < 0x1_0000
  {
    p[at] as int * 256 + p[at + 1]
  }

  /** The big-endian 32-bit field at `at`. */
  function Dword(p: Packet, at: nat): (w: nat)
    requires at + 4 <= |p|
    ensures w < 0x1_0000_0000
  {
    p[at] as int * 0x100_0000 + p[at + 1] as int * 0x1_0000 + p[at + 2] as int * 256 + p[at + 3]
  }

  function WordBytes(w: nat): (b: Packet)
    requires w < 0x1_0000
    ensures |b| == 2
  {
    [w / 256, w % 256]
  }

  /** Overwrites the 32-bit field at `at`. */
  function PutDword(p: Packet, at: nat, w: nat): (r: Packet)
    requires at + 4 <= |p| && w < 0x1_0000_0000
    ensures |r| == |p|
    ensures Dword(r, at) == w
    ensures forall i :: 0 <= i < |p| && !(at <= i < at + 4) ==> r[i] == p[i]
  {
    var hi := w / 0x1_0000;
    var lo := w % 0x1_0000;
    p[at := hi / 256][at + 1 := hi % 256][at + 2 := lo / 256][at + 3 := lo % 256]
  }

  /** Overwrites the 16-bit field at `at`. */
  function PutWord(p: Packet, at: nat, w: nat): (r: Packet)
    requires at + 2 <= |p| && w < 0x1_0000
    ensures |r| == |p|
    ensures Word(r, at) == w
    ensures forall i :: 0 <= i < |p| && !(at <= i < at + 2) ==> r[i] == p[i]
  {
    p[at := w / 256][at + 1 := w % 256]
  }

  // Header flags, each a bit of the second word: section 4.1.1 of RFC 1035, and section 3.2 of RFC 4035 for AD and CD.

  predicate IsReply(flags: nat) { flags / 0x8000 % 2 == 1 }

  predicate IsTruncated(flags: nat) { flags / 0x200 % 2 == 1 }

  predicate WantsRecursion(flags: nat) { flags / 0x100 % 2 == 1 }

  predicate IsAuthenticated(flags: nat) { flags / 0x20 % 2 == 1 }

  predicate ChecksDisabled(flags: nat) { flags / 0x10 % 2 == 1 }

  /** Two packets agree on the half-open range `[from, to)`. */
  predicate Agree(p: Packet, q: Packet, from: nat, to: nat)
  {
    to <= |p| && to <= |q| && forall i :: from <= i < to ==> p[i] == q[i]
  }
}
