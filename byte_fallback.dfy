/** The static operations of `manage_object_action_base`: the payload is
    `size` opaque bytes. Construction and destruction do nothing, cloning is
    a byte copy, and saving or loading moves exactly `size` raw bytes to or
    from the archive.
 */
module ByteFallback {
  import opened Archive

  /** The buffer `dest` becomes once its first `size` bytes are copied from `src`. */
  function Copied(dest: seq<byte>, src: seq<byte>, size: nat): (r: seq<byte>)
    requires size <= |dest| && size <= |src|
    ensures |r| == |dest|
    ensures forall k :: 0 <= k < size ==> r[k] == src[k]
    ensures forall k :: size <= k < |dest| ==> r[k] == dest[k]
  {
    src[..size] + dest[size..]
  }

  /** `construct_`: raw storage needs no initialisation. */
  method Construct(memory: array<byte>, size: nat)
    ensures unchanged(memory)
  {
  }

  /** `clone_`: a memcpy of `size` bytes from `src` to `dest`. */
  method Clone(dest: array<byte>, src: array<byte>, size: nat)
    requires size <= dest.Length && size <= src.Length
    modifies dest
    ensures dest[..] == Copied(old(dest[..]), old(src[..]), size)
    ensures src[..] == old(src[..])
  {
    var i := 0;
    while i < size
      invariant i <= size
      invariant forall k :: 0 <= k < i ==> dest[k] == old(src[k])
      invariant forall k :: i <= k < dest.Length ==> dest[k] == old(dest[k])
      invariant forall k :: 0 <= k < src.Length ==> src[k] == old(src[k])
    {
      dest[i] := src[i];
      i := i + 1;
    }
  }

  /** `destruct_`: raw storage needs no finalisation. */
  method Destruct(memory: array<byte>)
    ensures unchanged(memory)
  {
  }

  /** `save_`: appends the first `size` bytes of `data` to the archive as one raw run.
      The `version` tag is accepted and not used. */
  method Save(data: array<byte>, size: nat, ar: OArchive, version: nat)
    requires size <= data.Length
    modifies ar
    ensures ar.bytes == old(ar.bytes) + data[..size]
  {
    ar.bytes := ar.bytes + data[..size];
  }

  /** `load_`: extracts a raw run of `size` bytes from the archive into the
      first `size` bytes of `data`. A stream that holds fewer than `size`
      unread bytes is an input-stream failure. The `version` tag is accepted
      and not used. */
  method Load(data: array<byte>, size: nat, ar: IArchive, version: nat) returns (r: Outcome)
    requires ar.Valid() && size <= data.Length
    modifies data, ar
    ensures ar.Valid()
    ensures match Take(ar.data, old(ar.pos), size)
              case None =>
                r == Fail(InputStreamError) && ar.pos == old(ar.pos) && data[..] == old(data[..])
              case Some(run) =>
                r == Pass && ar.pos == old(ar.pos) + size && data[..] == run + old(data[size..])
  {
    if ar.pos + size > |ar.data| {
      return Fail(InputStreamError);
    }
    var i := 0;
    while i < size
      invariant i <= size
      invariant ar.pos + size <= |ar.data| && ar.pos == old(ar.pos)
      invariant forall k :: 0 <= k < i ==> data[k] == ar.data[ar.pos + k]
      invariant forall k :: i <= k < data.Length ==> data[k] == old(data[k])
    {
      data[i] := ar.data[ar.pos + i];
      i := i + 1;
    }
    ar.pos := ar.pos + size;
    r := Pass;
  }

  /** A buffer saved into an archive and loaded back into a fresh buffer of
      the same length arrives with its first `size` bytes intact. */
  method SaveThenLoad(a: array<byte>, size: nat, version: nat) returns (b: array<byte>, r: Outcome)
    requires size <= a.Length
    ensures r == Pass
    ensures b.Length == a.Length && b[..size] == a[..size]
  {
    var out := new OArchive();
    Save(a, size, out, version);
    var input := new IArchive(out.bytes);
    b := new byte[a.Length];
    TakeWhatWasAppended([], a[..size], []);
    assert input.data == [] + a[..size] + [];
    r := Load(b, size, input, version);
  }

  /** A clone into a fresh buffer holds an exact copy of the first `size`
      bytes, and the bytes after them are those the fresh buffer started with. */
  method CloneIntoFresh(src: array<byte>, size: nat) returns (dest: array<byte>)
    requires size <= src.Length
    ensures dest.Length == src.Length
    ensures dest[..size] == src[..size]
    ensures forall k :: size <= k < dest.Length ==> dest[k] == 0
  {
    dest := new byte[src.Length](_ => 0);
    Construct(dest, size);
    Clone(dest, src, size);
  }
}
