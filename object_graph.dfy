/** The live configuration object graph the engine edits, with an explicit schema in place of
    .NET reflection. Reference objects (records, lists, dictionaries, string sets) live in a heap
    addressed by `Ref`; strings, booleans, integers, floats and vectors are held inline. */
module ObjectGraph {
  import opened Wrappers

  type Ref = nat

  /** A single-precision float, kept as its bit pattern; float arithmetic is not modelled. */
  datatype Float = Float(bits: int)

  const FloatZero: Float := Float(0)

  /** Unity's Vector2, Vector3 and Vector4. */
  datatype VectorKind = Vector2 | Vector3 | Vector4

  function Components(k: VectorKind): nat {
    match k
    case Vector2 => 2
    case Vector3 => 3
    case Vector4 => 4
  }

  function ZeroComponents(n: nat): (cs: seq<Float>)
    ensures |cs| == n && forall k :: 0 <= k < n ==> cs[k] == FloatZero
  {
    if n == 0 then [] else ZeroComponents(n - 1) + [FloatZero]
  }

  /** The key type of a dictionary: a path segment can only ever match string keys. */
  datatype KeyType = StringKey | OtherKey(name: string)

  /** The declared (static) types a slot can have. */
  datatype Type =
    | StringType
    | BoolType
    | IntType
    | FloatType
    | VectorType(kind: VectorKind)
    | StringSetType                          // HashSet<string>
    | ListType(element: Type)                // List<T>
    | DictType(key: KeyType, value: Type)    // Dictionary<K, V> and SortedDictionary<K, V>
    | RecordType(name: string)               // a configuration class

  datatype Val =
    | Null
    | Str(s: string)
    | Bool(b: bool)
    | Int(i: int)
    | Flt(f: Float)
    | Vec(kind: VectorKind, cs: seq<Float>)
    | Ptr(r: Ref)

  datatype Obj =
    | Record(typeName: string, fields: map<string, Val>)
    | List(element: Type, items: seq<Val>)
    | Dict(key: KeyType, value: Type, entries: map<string, Val>)
    | StringSet(members: set<string>)

  /** The objects, and the reference the next allocation uses. */
  datatype Heap = Heap(objs: map<Ref, Obj>, next: Ref)

  /** Every object sits below the allocation mark, so allocations are fresh. */
  predicate HeapOk(h: Heap) {
    forall r :: r in h.objs ==> r < h.next
  }

  /** What reflection and the static tables of ModManagerFix.Initialize provide:
      - `fields[T]`: the public fields of record type T (inherited ones included) and their
        declared types, i.e. what `T.GetField(name)` finds;
      - `bases[T]`: the record types T derives from;
      - `abstractTypes`: the record types `Activator.CreateInstance` refuses;
      - `tags`: tagTypeMap, tag name to the type instantiated for `!tag`;
      - `parseFloat`: `float.TryParse` with NumberStyles.Float and the invariant culture. */
  datatype Schema = Schema(
    fields: map<string, map<string, Type>>,
    bases: map<string, set<string>>,
    abstractTypes: set<string>,
    tags: map<string, Type>,
    parseFloat: string -> Option<Float>)

  /** The one tag the mod registers. */
  const DefaultTags: map<string, Type> :=
    map["PartResolverClear" := RecordType("DataBlockPartSlotResolverClear")]

  function TypeOfObj(o: Obj): Type {
    match o
    case Record(n, _) => RecordType(n)
    case List(e, _) => ListType(e)
    case Dict(k, v, _) => DictType(k, v)
    case StringSet(_) => StringSetType
  }

  predicate IsList(h: Heap, r: Ref) {
    r in h.objs && h.objs[r].List?
  }

  predicate IsDict(h: Heap, r: Ref) {
    r in h.objs && h.objs[r].Dict?
  }

  /** `v.GetType()`; None for null. A reference outside the heap is read as null. */
  function RuntimeType(h: Heap, v: Val): (t: Option<Type>)
    ensures t.Some? && t.value.ListType? ==> v.Ptr? && IsList(h, v.r)
    ensures t.Some? && t.value.DictType? ==> v.Ptr? && IsDict(h, v.r)
    ensures t.Some? && t.value.RecordType? ==> v.Ptr? && v.r in h.objs && h.objs[v.r].Record?
    ensures t.None? <==> v.Null? || (v.Ptr? && v.r !in h.objs)
  {
    match v
    case Null => None
    case Str(_) => Some(StringType)
    case Bool(_) => Some(BoolType)
    case Int(_) => Some(IntType)
    case Flt(_) => Some(FloatType)
    case Vec(k, _) => Some(VectorType(k))
    case Ptr(r) => if r in h.objs then Some(TypeOfObj(h.objs[r])) else None
  }

  /** default(T): what a field of type T holds in a freshly constructed object. */
  function ZeroOf(t: Type): Val {
    match t
    case BoolType => Bool(false)
    case IntType => Int(0)
    case FloatType => Flt(FloatZero)
    case VectorType(k) => Vec(k, ZeroComponents(Components(k)))
    case _ => Null
  }

  /** `t.GetField(name)?.FieldType`: only record types have fields. */
  function FieldLookup(sch: Schema, t: Type, name: string): Option<Type> {
    if t.RecordType? && t.name in sch.fields && name in sch.fields[t.name]
    then Some(sch.fields[t.name][name])
    else None
  }

  /** `field.GetValue(obj)`. */
  function ReadField(h: Heap, obj: Val, name: string, fieldType: Type): Val {
    if obj.Ptr? && obj.r in h.objs && h.objs[obj.r].Record? && name in h.objs[obj.r].fields
    then h.objs[obj.r].fields[name]
    else ZeroOf(fieldType)
  }

  /** The fields of a freshly constructed record, each at default(T). */
  function DefaultFields(sch: Schema, name: string): map<string, Val> {
    if name in sch.fields
    then map f | f in sch.fields[name] :: ZeroOf(sch.fields[name][f])
    else map[]
  }

  function Allocate(h: Heap, o: Obj): (r: (Val, Heap))
    ensures r.0 == Ptr(h.next) && r.1.objs == h.objs[h.next := o]
    ensures HeapOk(h) ==> HeapOk(r.1) && h.next !in h.objs
  {
    (Ptr(h.next), Heap(h.objs[h.next := o], h.next + 1))
  }

  /** `Activator.CreateInstance(t)`: a value type gives its zero, a reference type a new object
      in its default state; string has no parameterless constructor and abstract classes cannot
      be instantiated. */
  function CreateInstance(sch: Schema, h: Heap, t: Type): (r: Result<(Val, Heap), Exception>)
    ensures t.StringType? ==> r == Err(MissingMethod)
    ensures r.Ok? && t in {BoolType, IntType, FloatType} ==> r.value == (ZeroOf(t), h)
    ensures r.Ok? && t.VectorType? ==> r.value == (ZeroOf(t), h)
    ensures r.Ok? && r.value.0.Ptr? ==>
      r.value.0.r == h.next && h.next in r.value.1.objs
      && r.value.1.objs == h.objs[h.next := r.value.1.objs[h.next]]
      && TypeOfObj(r.value.1.objs[h.next]) == t
    ensures r.Ok? ==> RuntimeType(r.value.1, r.value.0) == Some(t) || !r.value.0.Ptr?
    ensures r.Err? <==> t.StringType? || (t.RecordType? && t.name in sch.abstractTypes)
    ensures r.Err? ==> r.error == MissingMethod
    ensures r.Ok? && !(t in {BoolType, IntType, FloatType} || t.VectorType?) ==> r.value.0 == Ptr(h.next)
  {
    match t
    case StringType => Err(MissingMethod)
    case BoolType => Ok((ZeroOf(t), h))
    case IntType => Ok((ZeroOf(t), h))
    case FloatType => Ok((ZeroOf(t), h))
    case VectorType(_) => Ok((ZeroOf(t), h))
    case StringSetType => Ok(Allocate(h, StringSet({})))
    case ListType(e) => Ok(Allocate(h, List(e, [])))
    case DictType(k, v) => Ok(Allocate(h, Dict(k, v, map[])))
    case RecordType(n) =>
      if n in sch.abstractTypes then Err(MissingMethod)
      else Ok(Allocate(h, Record(n, DefaultFields(sch, n))))
  }

  /** Whether a value of runtime type `from` may be stored in a slot declared `to`. */
  predicate Assignable(sch: Schema, from: Type, to: Type) {
    from == to
    || (from.RecordType? && to.RecordType? && from.name in sch.bases && to.name in sch.bases[from.name])
  }

  /** FieldInfo: a field name and its declared type. */
  datatype FieldInfo = FieldInfo(name: string, fieldType: Type)

  /** The one write point of an edit: `list[index] = v`, `map[key] = v` or
      `field.SetValue(owner, v)`. */
  datatype Slot =
    | ListSlot(list: Ref, index: int)
    | DictSlot(dict: Ref, key: string)
    | FieldSlot(owner: Ref, field: FieldInfo)

  function SlotRef(s: Slot): Ref {
    match s
    case ListSlot(r, _) => r
    case DictSlot(r, _) => r
    case FieldSlot(r, _) => r
  }

  /** Writing through a slot changes that one entry of that one object and nothing else; an
      index past the end of the list and a dictionary whose keys are not strings throw. */
  function WriteSlot(h: Heap, s: Slot, v: Val): (r: Result<Heap, Exception>)
    ensures r.Ok? ==>
      SlotRef(s) in h.objs && r.value.next == h.next && SlotRef(s) in r.value.objs
      && r.value.objs == h.objs[SlotRef(s) := r.value.objs[SlotRef(s)]]
    ensures r.Ok? && s.ListSlot? ==>
      h.objs[s.list].List? && 0 <= s.index < |h.objs[s.list].items|
      && r.value.objs[s.list] == h.objs[s.list].(items := h.objs[s.list].items[s.index := v])
    ensures r.Ok? && s.DictSlot? ==>
      h.objs[s.dict].Dict? && h.objs[s.dict].key == StringKey
      && r.value.objs[s.dict] == h.objs[s.dict].(entries := h.objs[s.dict].entries[s.key := v])
    ensures r.Ok? && s.FieldSlot? ==>
      h.objs[s.owner].Record?
      && r.value.objs[s.owner] == h.objs[s.owner].(fields := h.objs[s.owner].fields[s.field.name := v])
    ensures s.ListSlot? && IsList(h, s.list) ==>
      (r.Ok? <==> 0 <= s.index < |h.objs[s.list].items|)
    ensures s.DictSlot? && IsDict(h, s.dict) ==> (r.Ok? <==> h.objs[s.dict].key == StringKey)
  {
    var ref := SlotRef(s);
    if ref !in h.objs then Err(NullReference)
    else
      var o := h.objs[ref];
      match s
      case ListSlot(_, i) =>
        if !o.List? then Err(NullReference)
        else if 0 <= i < |o.items| then Ok(h.(objs := h.objs[ref := o.(items := o.items[i := v])]))
        else Err(ArgumentOutOfRange)
      case DictSlot(_, k) =>
        if !o.Dict? then Err(NullReference)
        else if o.key == StringKey then Ok(h.(objs := h.objs[ref := o.(entries := o.entries[k := v])]))
        else Err(Argument)
      case FieldSlot(_, f) =>
        if !o.Record? then Err(NullReference)
        else Ok(h.(objs := h.objs[ref := o.(fields := o.fields[f.name := v])]))
  }
}
