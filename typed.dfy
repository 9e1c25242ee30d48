/** The static operations of `manage_object_action<T>`: the same five slots
    bound to a payload type T. Construction, cloning and destruction run T's
    own lifecycle in caller-owned memory; saving and loading stream the T
    itself through the archive.
 */
module Typed {
  import opened Archive

  /** What a payload type T brings to its descriptor: `sizeof(T)`, the value
      a default-constructed T holds, and T's streaming operators. `decode`
      reads a T from the front of the unread input and reports how many bytes
      it used, or None when the input does not hold one. */
  datatype PayloadType<!T> = PayloadType(
    size: nat,
    default: T,
    encode: T -> seq<byte>,
    decode: seq<byte> -> Option<Decoded<T>>)

  datatype Decoded<T> = Decoded(value: T, used: nat)

  /** T's extraction never claims to use more bytes than it was given. */
  ghost predicate DecodeInBounds<T(!new)>(p: PayloadType<T>)
  {
    forall input: seq<byte> :: p.decode(input).Some? ==> p.decode(input).value.used <= |input|
  }

  /** T's streaming round-trips: extracting from what insertion wrote gives
      back the value and uses exactly the bytes written, whatever follows. */
  ghost predicate RoundTrips<T(!new)>(p: PayloadType<T>)
  {
    forall v: T, rest: seq<byte> :: p.decode(p.encode(v) + rest) == Some(Decoded(v, |p.encode(v)|))
  }

  /** The lifecycle state of the caller-owned memory from T's point of view. */
  datatype Slot<T> = Uninit | Live(value: T)

  /** Caller-owned memory meant to hold one T. The descriptor never allocates
      or frees it; it only starts, copies, ends or assigns the T inside. */
  class Memory<T> {
    var content: Slot<T>

    constructor ()
      ensures content == Uninit
    {
      content := Uninit;
    }
  }

  /** `construct_`: default-constructs a T in place; `size` must be `sizeof(T)`. */
  method Construct<T>(p: PayloadType<T>, memory: Memory<T>, size: nat)
    requires size == p.size
    modifies memory
    ensures memory.content == Live(p.default)
  {
    memory.content := Live(p.default);
  }

  /** `clone_`: copy-constructs in `dest` a T equal to the live one in `src`;
      `size` must be `sizeof(T)`. The object in `src` stays live and unchanged. */
  method Clone<T>(p: PayloadType<T>, dest: Memory<T>, src: Memory<T>, size: nat)
    requires size == p.size
    requires src.content.Live?
    modifies dest
    ensures dest.content == old(src.content)
    ensures src.content == old(src.content)
  {
    dest.content := Live(src.content.value);
  }

  /** `destruct_`: runs T's destructor in place; the memory is uninitialised afterwards. */
  method Destruct<T>(memory: Memory<T>)
    requires memory.content.Live?
    modifies memory
    ensures memory.content == Uninit
  {
    memory.content := Uninit;
  }

  /** `save_`: inserts the live T into the archive. `size` is not checked and
      `version` is not used. */
  method Save<T>(p: PayloadType<T>, data: Memory<T>, size: nat, ar: OArchive, version: nat)
    requires data.content.Live?
    modifies ar
    ensures ar.bytes == old(ar.bytes) + p.encode(data.content.value)
  {
    ar.bytes := ar.bytes + p.encode(data.content.value);
  }

  /** `load_`: extracts a T from the archive and assigns it to the T already
      live in `data`. An input that does not hold a T is an input-stream
      failure that leaves the object and the cursor as they were. `size` is
      not checked and `version` is not used. */
  method Load<T(!new)>(p: PayloadType<T>, data: Memory<T>, size: nat, ar: IArchive, version: nat)
    returns (r: Outcome)
    requires DecodeInBounds(p)
    requires data.content.Live?
    requires ar.Valid()
    modifies data, ar
    ensures ar.Valid()
    ensures match p.decode(old(ar.Remaining()))
              case None =>
                r == Fail(InputStreamError) && ar.pos == old(ar.pos) && data.content == old(data.content)
              case Some(d) =>
                r == Pass && ar.pos == old(ar.pos) + d.used && data.content == Live(d.value)
  {
    match p.decode(ar.Remaining())
    case None =>
      r := Fail(InputStreamError);
    case Some(d) =>
      data.content := Live(d.value);
      ar.pos := ar.pos + d.used;
      r := Pass;
  }

  /** A live T saved into an archive and loaded back into a freshly constructed
      T arrives equal, given that T's streaming round-trips. */
  method SaveThenLoad<T(!new)>(p: PayloadType<T>, src: Memory<T>, version: nat)
    returns (dst: Memory<T>, r: Outcome)
    requires DecodeInBounds(p) && RoundTrips(p)
    requires src.content.Live?
    ensures r == Pass
    ensures dst.content == src.content
  {
    var out := new OArchive();
    Save(p, src, p.size, out, version);
    var input := new IArchive(out.bytes);
    assert input.Remaining() == p.encode(src.content.value) + [];
    dst := new Memory<T>();
    Construct(p, dst, p.size);
    r := Load(p, dst, p.size, input, version);
  }

  /** A clone outlives the original: once the source object is destroyed, the
      clone still holds the value the source had. */
  method CloneThenDestroySource<T>(p: PayloadType<T>, v: T) returns (dst: Memory<T>)
    ensures dst.content == Live(v)
  {
    var src := new Memory<T>();
    Construct(p, src, p.size);
    src.content := Live(v);  // the caller assigns v to the new object
    dst := new Memory<T>();
    Clone(p, dst, src, p.size);
    Destruct(src);
  }

  /** What inserting `values` one after another writes to an archive. */
  function Stream<T>(p: PayloadType<T>, values: seq<T>): (s: seq<byte>)
    ensures |values| == 1 ==> s == p.encode(values[0])
  {
    if values == [] then [] else p.encode(values[0]) + Stream(p, values[1..])
  }

  /** Inserting two runs of values writes the first run's bytes, then the second's. */
  lemma {:induction false} StreamAppend<T>(p: PayloadType<T>, a: seq<T>, b: seq<T>)
    ensures Stream(p, a + b) == Stream(p, a) + Stream(p, b)
  {
    if a == [] {
      assert a + b == b;
    } else {
      assert (a + b)[1..] == a[1..] + b;
      StreamAppend(p, a[1..], b);
    }
  }

  /** What `n` successive extractions read from `input`: the values and the
      total number of bytes used, or None as soon as one of them fails. Each
      extraction starts where the previous one stopped. An extraction that
      claims more bytes than are left counts as failed; under `DecodeInBounds`
      that never happens. */
  function Unstream<T>(p: PayloadType<T>, input: seq<byte>, n: nat): (r: Option<(seq<T>, nat)>)
    ensures r.Some? ==> |r.value.0| == n && r.value.1 <= |input|
  {
    if n == 0 then Some(([], 0))
    else match Unstream(p, input, n - 1)
      case None => None
      case Some(before) =>
        match p.decode(input[before.1..])
        case None => None
        case Some(e) =>
          if |input| - before.1 < e.used then None
          else Some((before.0 + [e.value], before.1 + e.used))
  }

  /** Payloads saved one after another into one archive are loaded back in
      the same order, each extraction resuming where the previous one
      stopped, whatever the archive holds after them. */
  lemma {:induction false} UnstreamStream<T(!new)>(p: PayloadType<T>, values: seq<T>, rest: seq<byte>)
    requires RoundTrips(p)
    ensures Unstream(p, Stream(p, values) + rest, |values|) == Some((values, |Stream(p, values)|))
    decreases |values|
  {
    if values != [] {
      var n := |values| - 1;
      var front, last := values[..n], values[n];
      assert values == front + [last];
      var enc := p.encode(last);
      StreamAppend(p, front, [last]);
      assert Stream(p, values) == Stream(p, front) + enc;
      var input := Stream(p, values) + rest;
      assert input == Stream(p, front) + (enc + rest);
      UnstreamStream(p, front, enc + rest);
      assert input[|Stream(p, front)|..] == enc + rest;
      assert p.decode(enc + rest) == Some(Decoded(last, |enc|));
    }
  }

  /** The extraction after `n` successful ones starts at the offset where the
      n-th one stopped. */
  lemma {:induction false} UnstreamNext<T>(p: PayloadType<T>, input: seq<byte>, n: nat, vs: seq<T>, used: nat)
    requires Unstream(p, input, n) == Some((vs, used))
    ensures Unstream(p, input, n + 1) ==
              match p.decode(input[used..])
              case None => None
              case Some(e) => if |input| - used < e.used then None else Some((vs + [e.value], used + e.used))
  {
  }

  /** Once an extraction fails, every longer run of extractions fails too. */
  lemma {:induction false} UnstreamFailureSticks<T>(p: PayloadType<T>, input: seq<byte>, m: nat, n: nat)
    requires m <= n && Unstream(p, input, m).None?
    ensures Unstream(p, input, n).None?
    decreases n - m
  {
    if m < n {
      UnstreamFailureSticks(p, input, m, n - 1);
    }
  }

  /** The values held by a sequence of memories that each hold a live T. */
  ghost function Values<T>(objs: seq<Memory<T>>): (vs: seq<T>)
    reads objs
    requires forall i :: 0 <= i < |objs| ==> objs[i].content.Live?
    ensures |vs| == |objs|
    ensures forall i :: 0 <= i < |objs| ==> objs[i].content == Live(vs[i])
  {
    seq(|objs|, i reads objs requires 0 <= i < |objs| && objs[i].content.Live? => objs[i].content.value)
  }

  /** `save_` called on each memory in turn, as a message carrying several
      payloads does: the archive gains their encodings in order. */
  method SaveAll<T>(p: PayloadType<T>, objs: seq<Memory<T>>, ar: OArchive, version: nat)
    requires forall i :: 0 <= i < |objs| ==> objs[i].content.Live?
    modifies ar
    ensures ar.bytes == old(ar.bytes) + Stream(p, Values(objs))
  {
    var i := 0;
    while i < |objs|
      invariant i <= |objs|
      invariant ar.bytes == old(ar.bytes) + Stream(p, Values(objs)[..i])
    {
      Save(p, objs[i], p.size, ar, version);
      assert Values(objs)[..i + 1] == Values(objs)[..i] + [objs[i].content.value];
      StreamAppend(p, Values(objs)[..i], [objs[i].content.value]);
      i := i + 1;
    }
    assert Values(objs)[..i] == Values(objs);
  }

  /** One more `load_` after `n` successful ones: it fails exactly when the
      (n+1)-th extraction of `Unstream` fails, and otherwise assigns that
      extraction's value and advances the cursor past its bytes. */
  method LoadNext<T(!new)>(p: PayloadType<T>, data: Memory<T>, ar: IArchive, version: nat,
                           ghost input: seq<byte>, ghost n: nat, ghost vs: seq<T>, ghost used: nat)
    returns (r: Outcome)
    requires DecodeInBounds(p)
    requires data.content.Live?
    requires ar.Valid()
    requires Unstream(p, input, n) == Some((vs, used))
    requires ar.Remaining() == input[used..]
    modifies data, ar
    ensures ar.Valid() && data.content.Live?
    ensures r == Pass <==> Unstream(p, input, n + 1).Some?
    ensures r == Pass ==>
              Unstream(p, input, n + 1) == Some((vs + [data.content.value], used + (ar.pos - old(ar.pos))))
    ensures r.Fail? ==> data.content == old(data.content)
  {
    UnstreamNext(p, input, n, vs, used);
    r := Load(p, data, p.size, ar, version);
  }

  /** `load_` called on each memory in turn, stopping at the first failure.
      When all extractions succeed, the memories hold the values `Unstream`
      reads, in order, and the cursor has moved past exactly their bytes. */
  method LoadAll<T(!new)>(p: PayloadType<T>, objs: seq<Memory<T>>, ar: IArchive, version: nat)
    returns (r: Outcome)
    requires DecodeInBounds(p)
    requires ar.Valid()
    requires forall i :: 0 <= i < |objs| ==> objs[i].content.Live?
    requires forall i, j :: 0 <= i < j < |objs| ==> objs[i] != objs[j]
    modifies ar, objs
    ensures ar.Valid()
    ensures r == Pass <==> Unstream(p, old(ar.Remaining()), |objs|).Some?
    ensures r == Pass ==>
              var (vs, used) := Unstream(p, old(ar.Remaining()), |objs|).value;
              (forall i :: 0 <= i < |objs| ==> objs[i].content == Live(vs[i])) &&
              ar.pos == old(ar.pos) + used
  {
    ghost var input := ar.Remaining();
    ghost var vs: seq<T> := [];
    ghost var used: nat := 0;
    var i := 0;
    while i < |objs|
      invariant i <= |objs| && |vs| == i
      invariant ar.Valid()
      invariant Unstream(p, input, i) == Some((vs, used))
      invariant ar.pos == old(ar.pos) + used
      invariant forall k :: 0 <= k < i ==> objs[k].content == Live(vs[k])
      invariant forall k :: i <= k < |objs| ==> objs[k].content.Live?
    {
      assert ar.Remaining() == input[used..];
      r := LoadNext(p, objs[i], ar, version, input, i, vs, used);
      if r.Fail? {
        UnstreamFailureSticks(p, input, i + 1, |objs|);
        return;
      }
      vs, used := vs + [objs[i].content.value], ar.pos - old(ar.pos);
      i := i + 1;
    }
    r := Pass;
  }

  /** Several live payloads saved one after another into one archive and
      loaded back into as many live objects arrive equal and in order, given
      that T's streaming round-trips. */
  method SaveAllThenLoadAll<T(!new)>(p: PayloadType<T>, srcs: seq<Memory<T>>, dsts: seq<Memory<T>>, version: nat)
    returns (r: Outcome)
    requires DecodeInBounds(p) && RoundTrips(p)
    requires |srcs| == |dsts|
    requires forall i :: 0 <= i < |srcs| ==> srcs[i].content.Live? && dsts[i].content.Live?
    requires forall i, j :: 0 <= i < j < |dsts| ==> dsts[i] != dsts[j]
    requires forall i, j :: 0 <= i < |srcs| && 0 <= j < |dsts| ==> srcs[i] != dsts[j]
    modifies dsts
    ensures r == Pass
    ensures forall i :: 0 <= i < |dsts| ==> dsts[i].content == srcs[i].content
  {
    ghost var sent := Values(srcs);
    var out := new OArchive();
    SaveAll(p, srcs, out, version);
    var input := new IArchive(out.bytes);
    assert input.Remaining() == Stream(p, sent) + [];
    UnstreamStream(p, sent, []);
    r := LoadAll(p, dsts, input, version);
  }
}
