/**
 Values shared by every part of the model: byte strings, digests, the abstract hash
 function, failure-carrying results and big-endian integers.

 SHA-256 is a parameter `sha` of every definition that hashes, so each theorem holds for
 every hash function.  Since no function from byte strings to digests is injective, a
 theorem that needs collision resistance names the finite set of inputs it needs it on.
 */
module Basics {

  datatype Option<+T> = None | Some(value: T)

  datatype Result<+T, +E> = Success(value: T) | Failure(error: E)

  type byte = n: int | 0 <= n < 256

  /** A byte string; text is represented by its UTF-8 bytes. */
  type Bytes = seq<byte>

  type Text = Bytes

  /** A SHA-256 digest, as the 32 bytes that the 64 hexadecimal characters stand for. */
  type Digest = d: Bytes | |d| == 32 witness seq(32, _ => 0)

  type Hash = Bytes -> Digest

  /** No two different members of `inputs` have the same digest. */
  ghost predicate InjectiveOn(sha: Hash, inputs: set<Bytes>) {
    forall x, y :: x in inputs && y in inputs && sha(x) == sha(y) ==> x == y
  }

  predicate Collide(sha: Hash, x: Bytes, y: Bytes) {
    x != y && sha(x) == sha(y)
  }

  // ----- Big-endian unsigned integers -----

  type uint16 = n: int | 0 <= n < 0x1_0000

  type uint32 = n: int | 0 <= n < 0x1_0000_0000

  type uint64 = n: int | 0 <= n < 0x1_0000_0000_0000_0000

  function Word16(n: uint16): (b: Bytes)
    ensures |b| == 2 && Read16(b) == n
  {
    [n / 256, n % 256]
  }

  function Read16(b: Bytes): uint16
    requires |b| == 2
  {
    256 * (b[0] as int) + (b[1] as int)
  }

  function Word32(n: uint32): (b: Bytes)
    ensures |b| == 4 && Read32(b) == n
  {
    var b := Word16(n / 0x1_0000) + Word16(n % 0x1_0000);
    assert b[..2] == Word16(n / 0x1_0000) && b[2..] == Word16(n % 0x1_0000);
    b
  }

  function Read32(b: Bytes): uint32
    requires |b| == 4
  {
    0x1_0000 * Read16(b[..2]) + Read16(b[2..])
  }

  /** Eight bytes, most significant first: `struct.pack(">Q", n)`, and the AVM's `itob`. */
  function Word64(n: uint64): (b: Bytes)
    ensures |b| == 8 && Read64(b) == n
  {
    var b := Word32(n / 0x1_0000_0000) + Word32(n % 0x1_0000_0000);
    assert b[..4] == Word32(n / 0x1_0000_0000) && b[4..] == Word32(n % 0x1_0000_0000);
    b
  }

  function Read64(b: Bytes): uint64
    requires |b| == 8
  {
    0x1_0000_0000 * Read32(b[..4]) + Read32(b[4..])
  }
}
