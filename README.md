# Object-lifecycle descriptors of the HPX action layer

This project models `hpx/runtime/actions/manage_object_action.hpp`. The header
defines a type-erased descriptor with five operations that work on memory the
caller owns: construct, clone, destruct, save and load. It comes in three forms:

- `manage_object_action_base`, the byte fallback. It treats the payload as
  `size` opaque bytes. Construct and destruct do nothing. Clone is a `memcpy`.
  Save and load move exactly `size` raw bytes to or from the archive.
- `manage_object_action<T>`, the typed descriptor. It runs T's default
  constructor, copy constructor and destructor in place, and it streams the T
  itself through the archive.
- `manage_object_action<uint8_t>`, a specialisation that overrides nothing.
  It therefore hands out the byte fallback's functions.

Each descriptor hands out its operations through virtual getters. Each
descriptor type also has one canonical instance, returned by `get_instance()`.

The Dafny modules follow these parts:

- `Archive` (archive.dfy): bytes, the output archive (the bytes written so far)
  and the input archive (the received bytes and a read cursor).
- `ByteFallback` (byte_fallback.dfy): the base's static operations over an
  `array<byte>`.
- `Typed` (typed.dfy): the template's static operations over a `Memory<T>`.
  A `Memory<T>` holds either no object (`Uninit`) or a live T (`Live(v)`).
  A payload type is described by `PayloadType<T>`: `sizeof(T)`, the
  default-constructed value, and T's insertion and extraction operators. The
  round trip of T's streaming is never assumed. It is the predicate
  `RoundTrips`, which the round-trip members require.
- `Descriptors` (descriptors.dfy): the getters resolved on a descriptor's
  dynamic type, the canonical-instance mapping, and the function-local statics
  behind `get_instance()` as a class that creates each instance on first use.

## Model

| member | source | states |
|---|---|---|
| `Archive.Take` | hpx/runtime/actions/manage_object_action.hpp:52-57 | A raw-run extraction of `n` bytes at the cursor succeeds exactly when `n` bytes are left, and then yields those bytes in order |
| `Archive.TakeWhatWasAppended` | hpx/runtime/actions/manage_object_action.hpp:46-57 | A run appended after any prefix is read back whole by an extraction starting where it was appended, whatever follows it |
| `ByteFallback.Copied` | hpx/runtime/actions/manage_object_action.hpp:39-43 | The buffer a `memcpy` of `size` bytes produces: the same length, the first `size` bytes from the source, every later byte kept |
| `ByteFallback.Construct` | hpx/runtime/actions/manage_object_action.hpp:38 | Construction of raw storage leaves every byte unchanged |
| `ByteFallback.Clone` | hpx/runtime/actions/manage_object_action.hpp:39-43 | `dest[0..size)` becomes `src[0..size)`, bytes of `dest` past `size` are kept, and `src` is unchanged |
| `ByteFallback.Destruct` | hpx/runtime/actions/manage_object_action.hpp:44 | Destruction of raw storage leaves every byte unchanged |
| `ByteFallback.Save` | hpx/runtime/actions/manage_object_action.hpp:46-51 | Appends exactly `data[0..size)` to the output archive and nothing else; `data` is not written |
| `ByteFallback.Load` | hpx/runtime/actions/manage_object_action.hpp:52-57 | With `size` bytes left, consumes exactly `size` bytes into `data[0..size)` and keeps the rest of `data`; otherwise reports an input-stream failure and changes nothing |
| `ByteFallback.SaveThenLoad` | hpx/runtime/actions/manage_object_action.hpp:46-57 | Saving buffer A and loading into a fresh buffer B succeeds and reproduces A's first `size` bytes in B |
| `ByteFallback.CloneIntoFresh` | hpx/runtime/actions/manage_object_action.hpp:38-43 | Constructing then cloning into a zeroed buffer yields an exact copy of the first `size` bytes and zeros after them |
| `Typed.Construct` | hpx/runtime/actions/manage_object_action.hpp:105-109 | Requires `size == sizeof(T)`; the memory then holds a live, default-constructed T |
| `Typed.Clone` | hpx/runtime/actions/manage_object_action.hpp:110-114 | Requires `size == sizeof(T)` and a live T in `src`; `dest` then holds a live T equal to it, and `src` stays live and unchanged |
| `Typed.Destruct` | hpx/runtime/actions/manage_object_action.hpp:115-118 | Requires a live T; afterwards the memory holds no object |
| `Typed.Save` | hpx/runtime/actions/manage_object_action.hpp:120-124 | Requires a live T, checks no size, and appends T's encoding of that value to the archive |
| `Typed.Load` | hpx/runtime/actions/manage_object_action.hpp:125-129 | Requires a live T and checks no size; a decodable input assigns the decoded value and advances the cursor by the bytes used; otherwise reports an input-stream failure and changes nothing |
| `Typed.SaveThenLoad` | hpx/runtime/actions/manage_object_action.hpp:105-129 | When T's streaming round-trips, saving a live T and loading it into a freshly constructed T succeeds and yields an equal value |
| `Typed.CloneThenDestroySource` | hpx/runtime/actions/manage_object_action.hpp:110-118 | A clone still holds the original value after the source object is destroyed |
| `Typed.StreamAppend` | hpx/runtime/actions/manage_object_action.hpp:120-124 | Inserting two runs of values one after the other writes the first run's bytes followed by the second's |
| `Typed.SaveAll` | hpx/runtime/actions/manage_object_action.hpp:120-124 | Calling `save_` on each live object in turn appends exactly the encodings of their values, in order |
| `Typed.LoadNext` | hpx/runtime/actions/manage_object_action.hpp:125-129 | One more `load_` after `n` successful ones succeeds exactly when the (n+1)-th successive extraction succeeds, and then assigns that extraction's value and advances the cursor by its bytes; on failure the object is unchanged |
| `Typed.UnstreamFailureSticks` | hpx/runtime/actions/manage_object_action.hpp:125-129 | Once an extraction fails, every longer run of extractions fails too |
| `Typed.LoadAll` | hpx/runtime/actions/manage_object_action.hpp:125-129 | Calling `load_` on each live object in turn succeeds exactly when `n` successive extractions succeed; the objects then hold the extracted values in order and the cursor has moved past exactly their bytes |
| `Typed.SaveAllThenLoadAll` | hpx/runtime/actions/manage_object_action.hpp:120-129 | When T's streaming round-trips, live objects saved one after another into one archive and loaded back into as many distinct live objects succeed and arrive equal, in order |
| `Typed.Unstream` | hpx/runtime/actions/manage_object_action.hpp:125-129 | `n` successive extractions, each starting where the previous one stopped, that all succeed yield exactly `n` values and use no more bytes than the input holds |
| `Typed.UnstreamStream` | hpx/runtime/actions/manage_object_action.hpp:120-129 | When T's streaming round-trips, the successive extractions of `Unstream` applied to the bytes `SaveAll` writes give back the saved values in order, using exactly those bytes, whatever follows |
| `Descriptors.Get` | hpx/runtime/actions/manage_object_action.hpp:64-87 | Each getter hands out the function for its own slot, and a typed function only from the descriptor of its own payload type, never for `uint8_t` |
| `Descriptors.InstanceKind` | hpx/runtime/actions/manage_object_action.hpp:157-162 | The canonical instance is always of a `manage_object_action<T>` type |
| `Descriptors.UInt8IsFallback` | hpx/runtime/actions/manage_object_action.hpp:184-206 | `manage_object_action<uint8_t>` overrides no getter, so all five of its getters return the base's functions |
| `Descriptors.GettersIdentifyPayload` | hpx/runtime/actions/manage_object_action.hpp:133-154 | Two descriptors hand out the same function for a slot exactly when they bind the same payload type, with the base counted as `uint8_t` |
| `Descriptors.InstanceIsCanonical` | hpx/runtime/actions/manage_object_action.hpp:208-214 | The canonical instance has the same five functions as the object it was asked of, and it is its own canonical instance |
| `Descriptors.Instances.GetInstance` | hpx/runtime/actions/manage_object_action.hpp:157-162 | Returns the static of the canonical type: created on the first call, the same object on every later call, and the `uint8_t` instance when asked of the base |
| `Descriptors.Instances.DistinctTypesDistinctInstances` | hpx/runtime/actions/manage_object_action.hpp:208-214 | The statics of two different descriptor types are different objects |
| `Descriptors.SameInstanceTwice` | hpx/runtime/actions/manage_object_action.hpp:157-162 | Two requests for the same canonical type return the same object |
| `Descriptors.DifferentInstances` | hpx/runtime/actions/manage_object_action.hpp:208-214 | Requests for two different canonical types return different objects |

## Left out

- The archive codec (portable versus native binary archive, and the wire format of `make_array`) is not modelled. An archive is a plain byte sequence, and a typed value's encoding is whatever `PayloadType.encode` gives.
- ByteFallback.Load: on a stream with fewer than `size` unread bytes, the model reports the failure and changes nothing. A real binary archive may already have copied the bytes it could read before it throws.
- Typed.Load: same as for ByteFallback.Load. A failed extraction leaves the object and the cursor unchanged; partial effects of a throwing `operator>>` are not modelled.
- Typed.Destruct: the bytes under the object are not modelled, here or in Typed.Construct and Typed.Clone. The reinterpretation of raw memory as a T is replaced by the `Uninit`/`Live` state of a `Memory<T>`. Exceptions thrown by T's constructors are not modelled either.
- Typed.Construct: every default-constructed T gets the value `PayloadType.default`. For a T with a trivial default constructor (an integer, a plain struct) the source leaves the new object's value indeterminate. The model does not capture that indeterminacy, so a save right after construction has a defined result here.
- Typed.LoadAll: when an extraction fails, the contract says only that the result is a failure. It does not state which objects were already assigned or where the cursor stopped, although the loop stops at the first failure.
- Typed.Construct and Typed.Clone accept memory that already holds a live T, as placement new does; the old object is dropped without its destructor.
- ByteFallback.Clone is modelled as a byte-by-byte copy in order. When `dest` and `src` are the same array this is the identity. Partially overlapping regions cannot be expressed with separate arrays.
- `BOOST_ASSERT(size == sizeof(T))` is modelled as a precondition of Typed.Construct and Typed.Clone. Apart from that assertion, neither operation uses `size`, so release builds ignore it. The model keeps the debug-build contract.
- Payload types are value types (`T(!new)` where the round-trip predicate quantifies over T).
- The `version` argument is carried through every save and load but used by none, as in the source. No schema evolution is modelled.
- Base-class registration (`register_base`, `void_cast_register`), the `serialize` members that only serialize the base subobject, and the `HPX_REGISTER_MANAGE_OBJECT_ACTION` macro have no logic of their own. They are not modelled.
- The thread-safe, once-only initialisation of the function-local statics is a concurrency concern. Only the identity it guarantees (one object per descriptor type) is modelled.
- libs/core/algorithms/include/hpx/parallel/container_algorithms/generate.hpp, libs/core/algorithms/tests/unit/algorithms/for_loop_sender.cpp and libs/full/runtime_configuration_local/include/hpx/runtime_configuration_local/init_ini_data_local.hpp are not part of this model. They are parallel-algorithm dispatch, a thread-pool test, and declarations for configuration I/O.
