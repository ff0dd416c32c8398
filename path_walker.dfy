/** The path walker of ModManagerFix as functions: one function per C# procedure
    (ProduceListElement, EditList, ProduceMapEntry, EditMap, ProduceField, one iteration of
    WalkFieldPath, ValidateEditState), each mapping the edit state and the heap before the call
    to the outcome and the heap after it. */
module PathWalker {
  import opened Wrappers
  import opened Strings
  import opened Numbers
  import opened EditOperations
  import opened ObjectGraph

  /** EditState: the current target, its parent (the owner of the slot finally written), and
      the three addressing data, of which a finished walk leaves exactly one live. `targetType`
      holds the declared type of the target once a segment has been resolved. */
  datatype EditState = EditState(
    target: Val,
    parent: Val,
    targetIndex: int,
    targetKey: Option<string>,
    fieldInfo: Option<FieldInfo>,
    targetType: Option<Type>)

  /** The state ProcessFieldEdit starts a walk from. */
  function StartState(root: Val): EditState {
    EditState(root, root, -1, None, None, None)
  }

  /** Why an edit was refused; each corresponds to one report of the C# code. */
  datatype Reason =
    | NullTarget            // current target reference is null
    | FieldNotFound         // no such field on the target's runtime type
    | BadIndex              // list index not an integer, or negative
    | BeyondEndOfList       // cannot descend past the end of a list
    | RemoveOutOfBounds     // list Remove at an index not in the list
    | MissingKey            // cannot descend into, or remove, an absent key
    | NonStringKey          // Insert into a dictionary whose keys are not strings
    | KeyExists             // Insert of a key already present, with nothing to write
    | ListIndexInvalid      // ValidateEditState: list parent without an index
    | DictKeyInvalid        // ValidateEditState: dictionary parent without a key
    | FieldInfoMissing      // ValidateEditState: record parent without a field
    | Unparsable            // int or float literal that does not parse
    | VectorParentheses     // vector literal not enclosed in parentheses
    | VectorArity           // vector literal with the wrong number of components
    | VectorComponent       // vector component that does not parse
    | SetOperationUnsupported  // a string set accepts only Insert and Remove
    | SetValuePresent       // Insert of a string the set already holds
    | SetValueAbsent        // Remove of a string the set does not hold
    | NoParser              // type without a value updater, operation not DefaultValue
    | NotAFieldSlot         // default instance requested for a list element or map value
    | UnknownTag            // `!tag` not in the tag table

  /** The result of one directive: skipped by the early guard, applied (possibly without a value
      write, as for Remove), refused with a report, or ended by an exception. */
  datatype Outcome = Ignored | Edited | Rejected(reason: Reason) | Threw(ex: Exception)

  /** The boolean EditList and EditMap return: go on to a value write, or stop here. */
  datatype Verdict = Continue | Halt(outcome: Outcome)

  /** The boolean the Produce* procedures return, with the state they leave. */
  datatype Progress = Proceed(st: EditState) | Stop(outcome: Outcome)

  /** The list after inserting `v` before `index`, or at the end when `index` is past it. */
  function Inserted(items: seq<Val>, index: nat, v: Val): seq<Val> {
    if index >= |items| then items + [v] else items[..index] + [v] + items[index..]
  }

  /** The list without its element at `index`. */
  function RemovedAt(items: seq<Val>, index: nat): seq<Val>
    requires index < |items|
  {
    items[..index] + items[index + 1..]
  }

  /** EditList: the terminal Insert/Remove on a list; every other operation goes on unchecked. */
  function EditList(sch: Schema, h: Heap, list: Ref, index: nat, op: EditOperation, value: string)
    : (r: (Verdict, Heap))
    requires IsList(h, list)
    ensures IsList(r.1, list) && r.1.objs[list].element == h.objs[list].element
    ensures op == Overwrite || op == DefaultValue ==> r == (Continue, h)
    ensures op == Remove ==> r.0.Halt?
    ensures r.0 != Halt(Ignored)
    ensures r.0.Halt? && r.0.outcome.Rejected? ==> r.1 == h
    ensures op == Remove && index >= |h.objs[list].items| ==> r == (Halt(Rejected(RemoveOutOfBounds)), h)
    ensures op == Insert && r.0 == Continue ==> !IsNullOrWhiteSpace(value)
  {
    var l := h.objs[list];
    var outOfBounds := index >= |l.items|;
    if op == Insert then
      match CreateInstance(sch, h, l.element)
      case Err(ex) => (Halt(Threw(ex)), h)
      case Ok((v, h1)) =>
        var h2 := h1.(objs := h1.objs[list := l.(items := Inserted(l.items, index, v))]);
        (if IsNullOrWhiteSpace(value) then Halt(Edited) else Continue, h2)
    else if op == Remove then
      if outOfBounds then (Halt(Rejected(RemoveOutOfBounds)), h)
      else (Halt(Edited), h.(objs := h.objs[list := l.(items := RemovedAt(l.items, index))]))
    else (Continue, h)
  }

  /** ProduceListElement: parse the index, apply EditList on the last segment or check the bound
      otherwise, then descend to `list[index]` (which throws past the end). */
  function ProduceListElement(
    sch: Schema, h: Heap, list: Ref, segment: string, atEnd: bool, op: EditOperation, value: string)
    : (r: (Progress, Heap))
    requires IsList(h, list)
    ensures r.0 != Stop(Ignored)
    ensures r.0.Stop? && r.0.outcome.Rejected? ==> r.1 == h
    ensures ParseInt32(segment).None? || ParseInt32(segment).value < 0 ==> r == (Stop(Rejected(BadIndex)), h)
    ensures r.0.Proceed? ==>
      && ParseInt32(segment).Some? && r.0.st.targetIndex == ParseInt32(segment).value
      && IsList(r.1, list) && 0 <= r.0.st.targetIndex < |r.1.objs[list].items|
      && r.0.st.target == r.1.objs[list].items[r.0.st.targetIndex]
      && r.0.st.parent == Ptr(list) && r.0.st.targetKey.None? && r.0.st.fieldInfo.None?
      && r.0.st.targetType == Some(h.objs[list].element)
    ensures (ParseInt32(segment).Some? && 0 <= ParseInt32(segment).value < |h.objs[list].items|
             && (!atEnd || op == Overwrite || op == DefaultValue)) ==>
      r.0.Proceed? && r.1 == h
    ensures ParseInt32(segment).Some? && ParseInt32(segment).value >= |h.objs[list].items| && !atEnd ==>
      r == (Stop(Rejected(BeyondEndOfList)), h)
  {
    var parsed := ParseInt32(segment);
    if parsed.None? || parsed.value < 0 then (Stop(Rejected(BadIndex)), h)
    else
      var index: nat := parsed.value;
      var element := h.objs[list].element;
      var (verdict, h1) :=
        if atEnd then EditList(sch, h, list, index, op, value)
        else if index >= |h.objs[list].items| then (Halt(Rejected(BeyondEndOfList)), h)
        else (Continue, h);
      match verdict
      case Halt(o) => (Stop(o), h1)
      case Continue =>
        assert IsList(h1, list);
        var items := h1.objs[list].items;
        if index < |items|
        then (Proceed(EditState(items[index], Ptr(list), index, None, None, Some(element))), h1)
        else (Stop(Threw(ArgumentOutOfRange)), h1)
  }

  /** IDictionary.Contains with a string key: never true when the keys are not strings. */
  predicate HasKey(d: Obj, key: string)
    requires d.Dict?
  {
    d.key == StringKey && key in d.entries
  }

  /** The non-generic IDictionary indexer read: null for an absent key. */
  function EntryValue(d: Obj, key: string): Val
    requires d.Dict?
  {
    if HasKey(d, key) then d.entries[key] else Null
  }

  /** EditMap: the terminal Insert/Remove on a dictionary; every other operation goes on, even
      for an absent key. */
  function EditMap(sch: Schema, h: Heap, dict: Ref, key: string, op: EditOperation, value: string)
    : (r: (Verdict, Heap))
    requires IsDict(h, dict)
    ensures IsDict(r.1, dict) && r.1.objs[dict].value == h.objs[dict].value
    ensures r.1.objs[dict].key == h.objs[dict].key
    ensures op == Overwrite || op == DefaultValue ==> r == (Continue, h)
    ensures op == Remove ==> r.0.Halt?
    ensures r.0 != Halt(Ignored)
    ensures r.0.Halt? && r.0.outcome.Rejected? ==> r.1 == h
    ensures op == Remove && !HasKey(h.objs[dict], key) ==> r == (Halt(Rejected(MissingKey)), h)
    ensures op == Insert && HasKey(h.objs[dict], key) ==> r.1 == h
    ensures op == Insert && r.0 == Continue ==> !IsNullOrWhiteSpace(value)
  {
    var d := h.objs[dict];
    if op == Insert then
      var proceed := !IsNullOrWhiteSpace(value);
      if HasKey(d, key) then (if proceed then Continue else Halt(Rejected(KeyExists)), h)
      else if d.key != StringKey then (Halt(Rejected(NonStringKey)), h)
      else
        match CreateInstance(sch, h, d.value)
        case Err(ex) => (Halt(Threw(ex)), h)
        case Ok((v, h1)) =>
          (if proceed then Continue else Halt(Edited),
           h1.(objs := h1.objs[dict := d.(entries := d.entries[key := v])]))
    else if op == Remove then
      if !HasKey(d, key) then (Halt(Rejected(MissingKey)), h)
      else (Halt(Edited), h.(objs := h.objs[dict := d.(entries := d.entries - {key})]))
    else (Continue, h)
  }

  /** ProduceMapEntry: apply EditMap on the last segment or require the key otherwise, then
      descend to `map[key]`. */
  function ProduceMapEntry(
    sch: Schema, h: Heap, dict: Ref, key: string, atEnd: bool, op: EditOperation, value: string)
    : (r: (Progress, Heap))
    requires IsDict(h, dict)
    ensures r.0 != Stop(Ignored)
    ensures r.0.Stop? && r.0.outcome.Rejected? ==> r.1 == h
    ensures !atEnd && !HasKey(h.objs[dict], key) ==> r == (Stop(Rejected(MissingKey)), h)
    ensures r.0.Proceed? ==>
      && IsDict(r.1, dict) && r.0.st.targetKey == Some(key)
      && r.0.st.target == EntryValue(r.1.objs[dict], key)
      && r.0.st.parent == Ptr(dict) && r.0.st.targetIndex == -1 && r.0.st.fieldInfo.None?
      && r.0.st.targetType == Some(h.objs[dict].value)
    ensures (!atEnd && HasKey(h.objs[dict], key)) || (atEnd && (op == Overwrite || op == DefaultValue)) ==>
      r.0.Proceed? && r.1 == h
  {
    var valueType := h.objs[dict].value;
    var (verdict, h1) :=
      if atEnd then EditMap(sch, h, dict, key, op, value)
      else if !HasKey(h.objs[dict], key) then (Halt(Rejected(MissingKey)), h)
      else (Continue, h);
    match verdict
    case Halt(o) => (Stop(o), h1)
    case Continue =>
      assert IsDict(h1, dict);
      (Proceed(EditState(EntryValue(h1.objs[dict], key), Ptr(dict), -1, Some(key), None, Some(valueType))), h1)
  }

  /** ProduceField: look the segment up as a field of the target's runtime type and descend to
      the field's value. Nothing is written. */
  function ProduceField(sch: Schema, h: Heap, target: Val, runtimeType: Type, name: string): (p: Progress)
    ensures p.Stop? <==> FieldLookup(sch, runtimeType, name).None?
    ensures p.Stop? ==> p == Stop(Rejected(FieldNotFound))
    ensures p.Proceed? ==>
      var ft := FieldLookup(sch, runtimeType, name).value;
      && p.st.fieldInfo == Some(FieldInfo(name, ft)) && p.st.targetType == Some(ft)
      && p.st.parent == target && p.st.target == ReadField(h, target, name, ft)
      && p.st.targetIndex == -1 && p.st.targetKey.None?
  {
    match FieldLookup(sch, runtimeType, name)
    case None => Stop(Rejected(FieldNotFound))
    case Some(ft) =>
      Proceed(EditState(ReadField(h, target, name, ft), target, -1, None, Some(FieldInfo(name, ft)), Some(ft)))
  }

  /** One iteration of the loop of WalkFieldPath. The first segment is always a field name. */
  function StepSegment(
    sch: Schema, h: Heap, st: EditState, segments: seq<string>, i: nat, op: EditOperation, value: string)
    : (r: (Progress, Heap))
    requires i < |segments|
    ensures i < |segments| - 1 ==> r.1 == h
    ensures r.0 != Stop(Ignored)
    ensures r.0.Stop? && r.0.outcome.Rejected? ==> r.1 == h
  {
    var atEnd := i == |segments| - 1;
    match RuntimeType(h, st.target)
    case None => (Stop(Rejected(NullTarget)), h)
    case Some(t) =>
      if i > 0 && t.ListType? then ProduceListElement(sch, h, st.target.r, segments[i], atEnd, op, value)
      else if i > 0 && t.DictType? then ProduceMapEntry(sch, h, st.target.r, segments[i], atEnd, op, value)
      else (ProduceField(sch, h, st.target, t, segments[i]), h)
  }

  /** The loop of WalkFieldPath from segment `i` on: stops at the first segment that fails. */
  function Walk(
    sch: Schema, h: Heap, st: EditState, segments: seq<string>, i: nat, op: EditOperation, value: string)
    : (r: (Progress, Heap))
    requires i <= |segments|
    ensures i == |segments| ==> r == (Proceed(st), h)
    ensures r.0 != Stop(Ignored)
    ensures r.0.Stop? && r.0.outcome.Rejected? ==> r.1 == h
    ensures op != Insert && r.0 != Stop(Edited) ==> r.1 == h
    decreases |segments| - i
  {
    if i == |segments| then (Proceed(st), h)
    else
      match StepSegment(sch, h, st, segments, i, op, value)
      case (Stop(o), h1) => (Stop(o), h1)
      case (Proceed(st1), h1) => Walk(sch, h1, st1, segments, i + 1, op, value)
  }

  /** WalkFieldPath: the whole dotted path, from the root. */
  function WalkFieldPath(sch: Schema, h: Heap, root: Val, path: string, op: EditOperation, value: string)
    : (r: (Progress, Heap))
    ensures r.0 != Stop(Ignored)
    ensures r.0.Stop? && r.0.outcome.Rejected? ==> r.1 == h
    ensures op != Insert && r.0 != Stop(Edited) ==> r.1 == h
  {
    Walk(sch, h, StartState(root), Split(path, '.'), 0, op, value)
  }

  /** ValidateEditState: the single write point for the parent's shape, or the report that the
      datum for that shape is missing. */
  function ValidateEditState(h: Heap, st: EditState): (r: Result<Slot, Outcome>)
    ensures RuntimeType(h, st.parent).None? <==> r == Err(Threw(NullReference))
    ensures r.Ok? ==> st.parent.Ptr? && SlotRef(r.value) == st.parent.r
    ensures (r.Ok? && r.value.ListSlot?) <==> (st.parent.Ptr? && IsList(h, st.parent.r) && st.targetIndex != -1)
    ensures r.Ok? && r.value.ListSlot? ==> r.value.index == st.targetIndex
    ensures r.Ok? && r.value.DictSlot? ==> IsDict(h, st.parent.r) && st.targetKey == Some(r.value.key)
    ensures r.Ok? && r.value.FieldSlot? ==> st.fieldInfo == Some(r.value.field)
    ensures r.Err? && r.error.Rejected? ==>
      r.error.reason in {ListIndexInvalid, DictKeyInvalid, FieldInfoMissing}
  {
    match RuntimeType(h, st.parent)
    case None => Err(Threw(NullReference))
    case Some(t) =>
      if t.ListType? then
        if st.targetIndex == -1 then Err(Rejected(ListIndexInvalid)) else Ok(ListSlot(st.parent.r, st.targetIndex))
      else if t.DictType? then
        if st.targetKey.None? then Err(Rejected(DictKeyInvalid)) else Ok(DictSlot(st.parent.r, st.targetKey.value))
      else if st.fieldInfo.None? then Err(Rejected(FieldInfoMissing))
      else if st.parent.Ptr? then Ok(FieldSlot(st.parent.r, st.fieldInfo.value))
      // A parent that is a plain value never follows a walk (see WalkThenValidate). The source
      // still hands back a setter here, whose `SetValue` throws ArgumentException once called;
      // the model raises that exception at this point instead.
      else Err(Threw(Argument))
  }
}
