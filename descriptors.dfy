/** The descriptor objects: the virtual getters that hand out one of the
    static operations, and `get_instance`, which hands out the canonical
    instance of a descriptor type.

    A descriptor's dynamic type is `manage_object_action_base` itself or
    `manage_object_action<T>` for a payload type T. The specialisation for
    `uint8_t` overrides none of the getters and not `get_instance`; the
    primary template overrides all of them.
 */
module Descriptors {

  /** The payload type T of `manage_object_action<T>`, by name. */
  datatype PayloadTag = UInt8 | Other(name: string)

  /** The dynamic type of a descriptor object. */
  datatype Descriptor = Base | Typed(payload: PayloadTag)

  /** The five operation slots, one per getter. */
  datatype Op = ConstructOp | CloneOp | DestructOp | SaveOp | LoadOp

  /** The class whose static `construct_`, `clone_`, ... a function pointer designates. */
  datatype Statics = BaseStatics | TypedStatics(payload: PayloadTag)

  /** A function pointer `&owner::op_`. */
  datatype FnRef = FnRef(owner: Statics, op: Op)

  /** Whether the dynamic type overrides the five getters (and `get_instance`):
      the primary template does, the `uint8_t` specialisation and the base do not. */
  predicate Overrides(d: Descriptor)
  {
    d.Typed? && d.payload != UInt8
  }

  /** The getter for slot `op` (`construct()`, `clone()`, `destruct()`,
      `save()`, `load()`), resolved on the dynamic type `d`. */
  function Get(d: Descriptor, op: Op): (f: FnRef)
    ensures f.op == op
    ensures f.owner.TypedStatics? ==> d == Typed(f.owner.payload) && f.owner.payload != UInt8
  {
    if Overrides(d) then FnRef(TypedStatics(d.payload), op) else FnRef(BaseStatics, op)
  }

  /** The dynamic type of the object `get_instance()` returns when called on
      an object of dynamic type `d`. */
  function InstanceKind(d: Descriptor): (k: Descriptor)
    ensures k.Typed?
  {
    match d
    case Base => Typed(UInt8)
    case Typed(_) => d
  }

  /** `manage_object_action<uint8_t>` hands out exactly the base's functions:
      for bytes, the typed descriptor is the byte fallback. */
  lemma {:induction false} UInt8IsFallback(op: Op)
    ensures Get(Typed(UInt8), op) == Get(Base, op) == FnRef(BaseStatics, op)
  {
    assert !Overrides(Typed(UInt8)) && !Overrides(Base);
  }

  /** Every other payload type gets its own functions: two descriptors hand out
      the same function for a slot exactly when they bind the same payload type,
      counting the base as the `uint8_t` descriptor. */
  lemma {:induction false} GettersIdentifyPayload(d: Descriptor, e: Descriptor, op: Op)
    ensures Get(d, op) == Get(e, op) <==> InstanceKind(d) == InstanceKind(e)
  {
    match d
    case Base =>
    case Typed(t) =>
      match e
      case Base =>
      case Typed(u) =>
  }

  /** The canonical instance behaves like the object it was asked of, and asking
      the canonical instance for its own canonical instance gives it back. */
  lemma {:induction false} InstanceIsCanonical(d: Descriptor, op: Op)
    ensures Get(InstanceKind(d), op) == Get(d, op)
    ensures InstanceKind(InstanceKind(d)) == InstanceKind(d)
  {
    match d
    case Base =>
      UInt8IsFallback(op);
    case Typed(_) =>
  }

  /** A descriptor object; its dynamic type never changes. */
  class ManageObjectAction {
    const kind: Descriptor

    constructor (kind: Descriptor)
      ensures this.kind == kind
    {
      this.kind := kind;
    }
  }

  /** The function-local statics behind `get_instance()`: for every payload
      type whose instance has been asked for, the one object created then. */
  class Instances {
    var statics: map<PayloadTag, ManageObjectAction>

    ghost predicate Valid()
      reads this
    {
      forall t :: t in statics ==> statics[t].kind == Typed(t)
    }

    constructor ()
      ensures Valid() && statics == map[]
    {
      statics := map[];
    }

    /** `get_instance()` called on `self`: the static of the canonical
        descriptor type, created on first use and handed back on every later call. */
    method GetInstance(self: ManageObjectAction) returns (instance: ManageObjectAction)
      requires Valid()
      modifies this
      ensures Valid()
      ensures instance.kind == InstanceKind(self.kind)
      ensures InstanceKind(self.kind).payload in statics
      ensures statics[InstanceKind(self.kind).payload] == instance
      ensures InstanceKind(self.kind).payload in old(statics) ==>
                statics == old(statics) && instance == old(statics)[InstanceKind(self.kind).payload]
      ensures InstanceKind(self.kind).payload !in old(statics) ==>
                fresh(instance) && statics == old(statics)[InstanceKind(self.kind).payload := instance]
    {
      var t := InstanceKind(self.kind).payload;
      if t in statics {
        instance := statics[t];
      } else {
        instance := new ManageObjectAction(Typed(t));
        statics := statics[t := instance];
      }
    }

    /** Instances of different descriptor types are different objects. */
    lemma {:induction false} DistinctTypesDistinctInstances(t: PayloadTag, u: PayloadTag)
      requires Valid()
      requires t in statics && u in statics && t != u
      ensures statics[t] != statics[u]
    {
      assert statics[t].kind == Typed(t) && statics[u].kind == Typed(u);
    }
  }

  /** Asking twice, from two objects of the same canonical type, yields one and
      the same instance; asking for the base gives the `uint8_t` instance. */
  method SameInstanceTwice(registry: Instances, a: ManageObjectAction, b: ManageObjectAction)
    returns (x: ManageObjectAction, y: ManageObjectAction)
    requires registry.Valid()
    requires InstanceKind(a.kind) == InstanceKind(b.kind)
    modifies registry
    ensures registry.Valid()
    ensures x == y
    ensures x.kind == InstanceKind(a.kind)
  {
    x := registry.GetInstance(a);
    y := registry.GetInstance(b);
  }

  /** Asking for two different canonical types yields two different instances. */
  method DifferentInstances(registry: Instances, a: ManageObjectAction, b: ManageObjectAction)
    returns (x: ManageObjectAction, y: ManageObjectAction)
    requires registry.Valid()
    requires InstanceKind(a.kind) != InstanceKind(b.kind)
    modifies registry
    ensures registry.Valid()
    ensures x != y
  {
    x := registry.GetInstance(a);
    y := registry.GetInstance(b);
  }
}
