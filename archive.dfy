/** The archive the descriptors stream payloads into and out of.

    The concrete codec (portable or native binary encoding) is not part of
    this model: an output archive is the sequence of bytes written so far, an
    input archive is a received byte sequence with a read cursor. Both raw
    byte runs and typed values are moved through these two classes.
 */
module Archive {

  /** One octet of a payload buffer or of an archive. */
  newtype byte = x: int | 0 <= x < 256

  datatype Option<T> = None | Some(value: T)

  /** Why an extraction from an input archive failed. */
  datatype ArchiveError = InputStreamError

  /** The result of an operation that either completes or reports an archive failure. */
  datatype Outcome = Pass | Fail(error: ArchiveError)

  /** An output archive: everything appended to it so far, in order. */
  class OArchive {
    var bytes: seq<byte>

    constructor ()
      ensures bytes == []
    {
      bytes := [];
    }
  }

  /** An input archive: the received bytes and how many of them were consumed. */
  class IArchive {
    const data: seq<byte>
    var pos: nat

    ghost predicate Valid()
      reads this
    {
      pos <= |data|
    }

    constructor (received: seq<byte>)
      ensures Valid() && data == received && pos == 0
    {
      data := received;
      pos := 0;
    }

    /** The bytes not yet consumed. */
    function Remaining(): (r: seq<byte>)
      reads this
      requires Valid()
      ensures |r| == |data| - pos
      ensures data == data[..pos] + r
    {
      data[pos..]
    }
  }

  /** The raw run of `n` bytes an extraction at `pos` reads from `data`,
      or None when fewer than `n` bytes are left. */
  function Take(data: seq<byte>, pos: nat, n: nat): (r: Option<seq<byte>>)
    ensures r.Some? <==> pos + n <= |data|
    ensures r.Some? ==> |r.value| == n && forall k :: 0 <= k < n ==> r.value[k] == data[pos + k]
  {
    if pos + n <= |data| then Some(data[pos..pos + n]) else None
  }

  /** A run appended after `prefix` is read back whole by an extraction that
      starts where the run started, whatever follows it. */
  lemma {:induction false} TakeWhatWasAppended(prefix: seq<byte>, run: seq<byte>, rest: seq<byte>)
    ensures Take(prefix + run + rest, |prefix|, |run|) == Some(run)
  {
    var all := prefix + run + rest;
    assert all[|prefix|..|prefix| + |run|] == run;
  }
}
