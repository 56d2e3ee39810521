/** The bytes of a file: what the uploader reads and what the saver writes. */
module Transfer {

  newtype Byte = b: int | 0 <= b < 256

  function Zeros(n: nat): (z: seq<Byte>) {
    seq(n, _ => 0)
  }

  /** What a request for length bytes at offset init is answered with: the bytes of the file,
      and zeros where the file has ended. */
  function Answer(file: seq<Byte>, init: nat, length: nat): (r: seq<Byte>)
    ensures |r| == length
    ensures forall i :: 0 <= i < length ==> r[i] == (if init + i < |file| then file[init + i] else 0)
  {
    seq(length, i requires 0 <= i => if init + i < |file| then file[init + i] else 0)
  }

  /** The part of send_file() that answers one request: seek, then read byte by byte into a
      zeroed buffer, leaving the loop at the first read that fails. */
  method ReadSegment(file: seq<Byte>, init: nat, length: nat) returns (buf: array<Byte>)
    ensures fresh(buf) && buf[..] == Answer(file, init, length)
  {
    buf := new Byte[length](_ => 0);
    var position := init;
    for i := 0 to length
      invariant position == init + i
      invariant forall k :: 0 <= k < i ==> buf[k] == Answer(file, init, length)[k]
      invariant forall k :: i <= k < length ==> buf[k] == 0
    {
      if position >= |file| {
        break;
      }
      buf[i] := file[position];
      position := position + 1;
    }
  }

  /** A request inside the file is answered with exactly that stretch of it. */
  lemma AnswerInside(file: seq<Byte>, init: nat, length: nat)
    requires init + length <= |file|
    ensures Answer(file, init, length) == file[init..init + length]
  {
  }

  /** What recv() leaves in a zeroed buffer when only the first n bytes of an answer arrive. */
  function Received(answer: seq<Byte>, n: nat): (r: seq<Byte>)
    ensures |r| == |answer|
    ensures forall i :: 0 <= i < |answer| ==> r[i] == (if i < n then answer[i] else 0)
  {
    seq(|answer|, i requires 0 <= i < |answer| => if i < n then answer[i] else 0)
  }

  /** fseek to offset, then fwrite buf: a gap past the end of the file is filled with zeros. */
  function WriteAt(disk: seq<Byte>, offset: nat, buf: seq<Byte>): (r: seq<Byte>)
    ensures |r| == (if |disk| < offset + |buf| then offset + |buf| else |disk|)
    ensures r[offset..offset + |buf|] == buf
    ensures forall i :: 0 <= i < |disk| && !(offset <= i < offset + |buf|) ==> r[i] == disk[i]
  {
    var padded := if |disk| < offset then disk + Zeros(offset - |disk|) else disk;
    padded[..offset] + buf + (if offset + |buf| < |padded| then padded[offset + |buf|..] else [])
  }

  /** A write leaves every stretch of the file that it does not overlap as it was. */
  lemma WriteElsewhere(disk: seq<Byte>, offset: nat, buf: seq<Byte>, a: nat, b: nat)
    requires a <= b <= |disk|
    requires b <= offset || offset + |buf| <= a
    ensures WriteAt(disk, offset, buf)[a..b] == disk[a..b]
  {
  }
}
