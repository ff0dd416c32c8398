/** The edit engine as the C# code runs it. The keyed roots (dataInternal) and the object graph
    are fields of one store that the procedures change in place; the walker's state is passed
    from step to step. Every method is proved to end in the state, and with the result, that its
    specification function computes from the state it started in. */
module ModManagerFix {
  import opened Wrappers
  import opened Strings
  import opened Numbers
  import opened EditOperations
  import opened ObjectGraph
  import opened PathWalker
  import opened FieldEdit
  import opened FieldEditProperties
  import opened ConfigMods

  /** ParseVectorValue: checks the parentheses and the number of components, then fills a float
      array component by component, stopping at the first that does not parse. */
  method ParseVectorValue(sch: Schema, kind: VectorKind, raw: string) returns (r: Result<Val, Reason>)
    ensures r == ParseVector(sch, kind, raw)
  {
    ParenthesesTest(raw);
    if !StartsWith(raw, "(") || !EndsWith(raw, ")") {
      return Err(VectorParentheses);
    }
    var velems := Split(raw[1..|raw| - 1], ',');
    if |velems| != Components(kind) {
      return Err(VectorArity);
    }
    var parsed := new Float[|velems|];
    for i := 0 to |velems|
      invariant forall k :: 0 <= k < i ==> sch.parseFloat(velems[k]) == Some(parsed[k])
    {
      var result := sch.parseFloat(velems[i]);
      if result.None? {
        return Err(VectorComponent);
      }
      parsed[i] := result.value;
    }
    assert ParseComponents(sch.parseFloat, velems).value == parsed[..];
    return Ok(Vec(kind, parsed[..]));
  }

  class ConfigStore {
    /** dataInternal: the roots of one data type, by key. */
    var data: map<string, Ref>
    /** The object graph the roots live in, and its next free reference. */
    var objs: map<Ref, Obj>
    var next: Ref

    function Graph(): Heap
      reads this
    {
      Heap(objs, next)
    }

    function Contents(): Store
      reads this
    {
      Store(data, Graph())
    }

    constructor (s: Store)
      ensures Contents() == s
    {
      data := s.data;
      objs := s.heap.objs;
      next := s.heap.next;
    }

    /** A new object, at the next free reference. */
    method Allocate(o: Obj) returns (v: Val)
      modifies this
      ensures data == old(data)
      ensures (v, Graph()) == ObjectGraph.Allocate(old(Graph()), o)
    {
      v := Ptr(next);
      objs := objs[next := o];
      next := next + 1;
    }

    /** Activator.CreateInstance. */
    method Instantiate(sch: Schema, t: Type) returns (r: Result<Val, Exception>)
      modifies this
      ensures data == old(data)
      ensures CreateInstance(sch, old(Graph()), t).Err? ==>
        r == Err(CreateInstance(sch, old(Graph()), t).error) && Graph() == old(Graph())
      ensures CreateInstance(sch, old(Graph()), t).Ok? ==>
        r == Ok(CreateInstance(sch, old(Graph()), t).value.0) && Graph() == CreateInstance(sch, old(Graph()), t).value.1
    {
      match t
      case StringType =>
        r := Err(MissingMethod);
      case StringSetType =>
        var v := Allocate(StringSet({}));
        r := Ok(v);
      case ListType(e) =>
        var v := Allocate(List(e, []));
        r := Ok(v);
      case DictType(k, vt) =>
        var v := Allocate(Dict(k, vt, map[]));
        r := Ok(v);
      case RecordType(n) =>
        if n in sch.abstractTypes {
          r := Err(MissingMethod);
        } else {
          var v := Allocate(Record(n, DefaultFields(sch, n)));
          r := Ok(v);
        }
      case _ =>
        r := Ok(ZeroOf(t));
    }

    /** EditList. */
    method EditList(sch: Schema, list: Ref, index: nat, op: EditOperation, value: string) returns (verdict: Verdict)
      requires IsList(Graph(), list)
      modifies this
      ensures data == old(data)
      ensures (verdict, Graph()) == PathWalker.EditList(sch, old(Graph()), list, index, op, value)
    {
      var l := objs[list];
      var outOfBounds := index >= |l.items|;
      if op == Insert {
        var instance := Instantiate(sch, l.element);
        if instance.Err? {
          return Halt(Threw(instance.error));
        }
        if outOfBounds {
          objs := objs[list := l.(items := l.items + [instance.value])];
        } else {
          objs := objs[list := l.(items := l.items[..index] + [instance.value] + l.items[index..])];
        }
        return if IsNullOrWhiteSpace(value) then Halt(Edited) else Continue;
      }
      if op == Remove {
        if outOfBounds {
          return Halt(Rejected(RemoveOutOfBounds));
        }
        objs := objs[list := l.(items := l.items[..index] + l.items[index + 1..])];
        return Halt(Edited);
      }
      return Continue;
    }

    /** ProduceListElement. */
    method ProduceListElement(
      sch: Schema, list: Ref, segment: string, atEnd: bool, op: EditOperation, value: string)
      returns (p: Progress)
      requires IsList(Graph(), list)
      modifies this
      ensures data == old(data)
      ensures (p, Graph()) == PathWalker.ProduceListElement(sch, old(Graph()), list, segment, atEnd, op, value)
    {
      var result := ParseInt32(segment);
      if result.None? || result.value < 0 {
        return Stop(Rejected(BadIndex));
      }
      var index: nat := result.value;
      var elementType := objs[list].element;
      if atEnd {
        var verdict := EditList(sch, list, index, op, value);
        if verdict.Halt? {
          return Stop(verdict.outcome);
        }
      } else if index >= |objs[list].items| {
        return Stop(Rejected(BeyondEndOfList));
      }
      var items := objs[list].items;
      if index >= |items| {
        return Stop(Threw(ArgumentOutOfRange));
      }
      return Proceed(EditState(items[index], Ptr(list), index, None, None, Some(elementType)));
    }

    /** EditMap. */
    method EditMap(sch: Schema, dict: Ref, key: string, op: EditOperation, value: string) returns (verdict: Verdict)
      requires IsDict(Graph(), dict)
      modifies this
      ensures data == old(data)
      ensures (verdict, Graph()) == PathWalker.EditMap(sch, old(Graph()), dict, key, op, value)
    {
      var d := objs[dict];
      var entryExists := HasKey(d, key);
      if op == Insert {
        if !entryExists {
          if d.key != StringKey {
            return Halt(Rejected(NonStringKey));
          }
          var instance := Instantiate(sch, d.value);
          if instance.Err? {
            return Halt(Threw(instance.error));
          }
          objs := objs[dict := d.(entries := d.entries[key := instance.value])];
          return if IsNullOrWhiteSpace(value) then Halt(Edited) else Continue;
        }
        return if IsNullOrWhiteSpace(value) then Halt(Rejected(KeyExists)) else Continue;
      }
      if op == Remove {
        if !entryExists {
          return Halt(Rejected(MissingKey));
        }
        objs := objs[dict := d.(entries := d.entries - {key})];
        return Halt(Edited);
      }
      return Continue;
    }

    /** ProduceMapEntry. */
    method ProduceMapEntry(
      sch: Schema, dict: Ref, key: string, atEnd: bool, op: EditOperation, value: string)
      returns (p: Progress)
      requires IsDict(Graph(), dict)
      modifies this
      ensures data == old(data)
      ensures (p, Graph()) == PathWalker.ProduceMapEntry(sch, old(Graph()), dict, key, atEnd, op, value)
    {
      var entryExists := HasKey(objs[dict], key);
      var valueType := objs[dict].value;
      if atEnd {
        var verdict := EditMap(sch, dict, key, op, value);
        if verdict.Halt? {
          return Stop(verdict.outcome);
        }
      } else if !entryExists {
        return Stop(Rejected(MissingKey));
      }
      return Proceed(EditState(EntryValue(objs[dict], key), Ptr(dict), -1, Some(key), None, Some(valueType)));
    }

    /** WalkFieldPath: one iteration per segment, the first always a field name. */
    method WalkFieldPath(sch: Schema, root: Val, path: string, op: EditOperation, value: string)
      returns (p: Progress)
      modifies this
      ensures data == old(data)
      ensures (p, Graph()) == PathWalker.WalkFieldPath(sch, old(Graph()), root, path, op, value)
    {
      var segments := Split(path, '.');
      var st := StartState(root);
      for i := 0 to |segments|
        invariant data == old(data)
        invariant Walk(sch, old(Graph()), StartState(root), segments, 0, op, value)
          == Walk(sch, Graph(), st, segments, i, op, value)
      {
        var atEnd := i == |segments| - 1;
        var t := RuntimeType(Graph(), st.target);
        if t.None? {
          return Stop(Rejected(NullTarget));
        }
        var child := i > 0;
        var step: Progress;
        if child && t.value.ListType? {
          step := ProduceListElement(sch, st.target.r, segments[i], atEnd, op, value);
        } else if child && t.value.DictType? {
          step := ProduceMapEntry(sch, st.target.r, segments[i], atEnd, op, value);
        } else {
          step := ProduceField(sch, Graph(), st.target, t.value, segments[i]);
        }
        if step.Stop? {
          return step;
        }
        st := step.st;
      }
      return Proceed(st);
    }

    /** The setter ValidateEditState hands out, called with `v`. */
    method Write(slot: Slot, v: Val) returns (ex: Option<Exception>)
      modifies this
      ensures data == old(data)
      ensures ex.None? ==> WriteSlot(old(Graph()), slot, v) == Ok(Graph())
      ensures ex.Some? ==> WriteSlot(old(Graph()), slot, v) == Err(ex.value) && Graph() == old(Graph())
    {
      var ref := SlotRef(slot);
      if ref !in objs {
        return Some(NullReference);
      }
      var o := objs[ref];
      match slot {
        case ListSlot(_, i) =>
          if !o.List? {
            return Some(NullReference);
          }
          if !(0 <= i < |o.items|) {
            return Some(ArgumentOutOfRange);
          }
          objs := objs[ref := o.(items := o.items[i := v])];
        case DictSlot(_, k) =>
          if !o.Dict? {
            return Some(NullReference);
          }
          if o.key != StringKey {
            return Some(Argument);
          }
          objs := objs[ref := o.(entries := o.entries[k := v])];
        case FieldSlot(_, f) =>
          if !o.Record? {
            return Some(NullReference);
          }
          objs := objs[ref := o.(fields := o.fields[f.name := v])];
      }
      return None;
    }

    /** UpdateStringField, UpdateBoolField, UpdateIntField, UpdateFloatField and
        UpdateVector2/3/4Field: parse, then call the setter once. */
    method UpdateScalarField(sch: Schema, slot: Slot, t: Type, op: EditOperation, value: string)
      returns (o: Outcome)
      requires HasUpdater(t) && t != StringSetType
      modifies this
      ensures data == old(data)
      ensures (o, Graph()) == FieldEdit.UpdateScalarField(sch, old(Graph()), slot, t, op, value)
    {
      var v: Val;
      if t.VectorType? && op != DefaultValue {
        var parsed := ParseVectorValue(sch, t.kind, value);
        if parsed.Err? {
          return Rejected(parsed.error);
        }
        v := parsed.value;
      } else {
        var u := UpdateValue(sch, t, op, value);
        if u.Err? {
          return Rejected(u.error);
        }
        v := u.value;
      }
      var ex := Write(slot, v);
      if ex.Some? {
        return Threw(ex.value);
      }
      return Edited;
    }

    /** UpdateHashSet: the set the target refers to gains or loses the value. */
    method UpdateHashSet(target: Val, op: EditOperation, value: string) returns (o: Outcome)
      modifies this
      ensures data == old(data)
      ensures (o, Graph()) == FieldEdit.UpdateHashSet(old(Graph()), target, op, value)
    {
      if op != Insert && op != Remove {
        return Rejected(SetOperationUnsupported);
      }
      if !(target.Ptr? && target.r in objs && objs[target.r].StringSet?) {
        return Threw(NullReference);
      }
      var members := objs[target.r].members;
      var found := value in members;
      if op == Insert {
        if found {
          return Rejected(SetValuePresent);
        }
        objs := objs[target.r := StringSet(members + {value})];
      } else {
        if !found {
          return Rejected(SetValueAbsent);
        }
        objs := objs[target.r := StringSet(members - {value})];
      }
      return Edited;
    }

    /** The default-instance tail of ProcessFieldEdit. */
    method DefaultInstance(sch: Schema, st: EditState, declared: Type, op: EditOperation, value: string)
      returns (o: Outcome)
      modifies this
      ensures data == old(data)
      ensures (o, Graph()) == DefaultInstanceEdit(sch, old(Graph()), st, declared, op, value)
    {
      if op != DefaultValue {
        return Rejected(NoParser);
      }
      if st.fieldInfo.None? {
        return Rejected(NotAFieldSlot);
      }
      var instanceType := InstanceType(sch, declared, value);
      if instanceType.None? {
        return Rejected(UnknownTag);
      }
      var instance := Instantiate(sch, instanceType.value);
      if instance.Err? {
        return Threw(instance.error);
      }
      if !st.parent.Ptr? || !Assignable(sch, instanceType.value, st.fieldInfo.value.fieldType) {
        return Threw(Argument);
      }
      var ex := Write(FieldSlot(st.parent.r, st.fieldInfo.value), instance.value);
      if ex.Some? {
        return Threw(ex.value);
      }
      return Edited;
    }

    /** ProcessFieldEdit: one directive against the root. */
    method ProcessFieldEdit(sch: Schema, root: Val, path: string, raw: string) returns (o: Outcome)
      modifies this
      ensures data == old(data)
      ensures (o, Graph()) == FieldEdit.ProcessFieldEdit(sch, old(Graph()), root, path, raw)
    {
      if |path| == 0 || |raw| == 0 {
        return Ignored;
      }
      var (op, value) := ParseOperation(raw);
      var walked := WalkFieldPath(sch, root, path, op, value);
      if walked.Stop? {
        return walked.outcome;
      }
      var st := walked.st;
      var validated := ValidateEditState(Graph(), st);
      if validated.Err? {
        return validated.error;
      }
      if st.targetType.None? {
        return Threw(ArgumentNull);
      }
      var t := st.targetType.value;
      if t == StringSetType {
        o := UpdateHashSet(st.target, op, value);
      } else if HasUpdater(t) {
        o := UpdateScalarField(sch, validated.value, t, op, value);
      } else {
        o := DefaultInstance(sch, st, t, op, value);
      }
    }

    /** ApplyOverrides: each selected override replaces the root under its key, or adds it. */
    method ApplyOverrides(sch: Schema, dataType: string, overrides: seq<Option<ConfigOverride>>)
      modifies this
      ensures Graph() == old(Graph())
      ensures data == ConfigMods.ApplyOverrides(sch, old(Graph()), old(data), dataType, overrides)
    {
      for i := 0 to |overrides|
        invariant Graph() == old(Graph())
        invariant ConfigMods.ApplyOverrides(sch, Graph(), data, dataType, overrides[i..])
          == ConfigMods.ApplyOverrides(sch, Graph(), old(data), dataType, overrides)
      {
        assert overrides[i..][1..] == overrides[i + 1..];
        var o := overrides[i];
        if Selected(sch, Graph(), dataType, o) {
          data := data[o.value.key := o.value.container.value];
        }
      }
      assert overrides[|overrides|..] == [];
    }

    /** ApplyEdit. */
    method ApplyEdit(sch: Schema, key: string, edit: ConfigEditData) returns (outcomes: seq<Outcome>)
      modifies this
      ensures (outcomes, Contents()) == ConfigMods.ApplyEdit(sch, old(Contents()), key, edit)
    {
      if key !in data {
        return [];
      }
      if edit.removed {
        data := data - {key};
        return [];
      }
      if edit.edits.None? || edit.edits.value == [] {
        return [];
      }
      var root := Ptr(data[key]);
      var edits := edit.edits.value;
      outcomes := [];
      assert edits[0..] == edits;
      assert outcomes + RunDirectives(sch, Graph(), root, edits).0 == RunDirectives(sch, Graph(), root, edits).0;
      for i := 0 to |edits|
        invariant data == old(data)
        invariant RunDirectives(sch, old(Graph()), root, edits)
          == (outcomes + RunDirectives(sch, Graph(), root, edits[i..]).0, RunDirectives(sch, Graph(), root, edits[i..]).1)
      {
        ghost var before := Graph();
        assert edits[i..][0] == edits[i] && edits[i..][1..] == edits[i + 1..];
        var o := ProcessFieldEdit(sch, root, edits[i].path, edits[i].value);
        if o.Threw? {
          assert RunDirectives(sch, before, root, edits[i..]) == ([o], Graph());
          return outcomes + [o];
        }
        assert RunDirectives(sch, before, root, edits[i..]).0 == [o] + RunDirectives(sch, Graph(), root, edits[i + 1..]).0;
        assert outcomes + ([o] + RunDirectives(sch, Graph(), root, edits[i + 1..]).0)
          == (outcomes + [o]) + RunDirectives(sch, Graph(), root, edits[i + 1..]).0;
        outcomes := outcomes + [o];
      }
      assert edits[|edits|..] == [];
      assert outcomes + [] == outcomes;
    }

    /** ApplyEdits: every chosen edit script in order, until one ends with an exception. */
    method ApplyEdits(sch: Schema, dataType: string, edits: seq<Option<ConfigEdit>>) returns (outcomes: seq<Outcome>)
      modifies this
      ensures (outcomes, Contents()) == ConfigMods.ApplyEdits(sch, old(Contents()), dataType, edits)
    {
      outcomes := [];
      assert edits[0..] == edits;
      assert outcomes + ConfigMods.ApplyEdits(sch, Contents(), dataType, edits).0
        == ConfigMods.ApplyEdits(sch, Contents(), dataType, edits).0;
      for i := 0 to |edits|
        invariant ConfigMods.ApplyEdits(sch, old(Contents()), dataType, edits)
          == (outcomes + ConfigMods.ApplyEdits(sch, Contents(), dataType, edits[i..]).0,
              ConfigMods.ApplyEdits(sch, Contents(), dataType, edits[i..]).1)
      {
        ghost var before := Contents();
        ConfigMods.ApplyEditsStep(sch, before, dataType, edits, i);
        var os: seq<Outcome> := [];
        if Chosen(dataType, edits[i]) {
          os := ApplyEdit(sch, edits[i].value.key, edits[i].value.data.value);
        }
        assert (os, Contents()) == ConfigMods.ApplyChosen(sch, before, dataType, edits[i]);
        if Aborted(os) {
          return outcomes + os;
        }
        ghost var rest := ConfigMods.ApplyEdits(sch, Contents(), dataType, edits[i + 1..]).0;
        assert outcomes + (os + rest) == (outcomes + os) + rest;
        outcomes := outcomes + os;
      }
      assert edits[|edits|..] == [];
      assert outcomes + [] == outcomes;
    }
  }
}
