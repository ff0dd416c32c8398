/** What the path walker guarantees: the list and dictionary mutations it performs, the
    conditions under which it stops, that it changes nothing on the way down, and that a finished
    walk addresses exactly one slot. */
module WalkerProperties {
  import opened Wrappers
  import opened Strings
  import opened Numbers
  import opened EditOperations
  import opened ObjectGraph
  import opened PathWalker

  /** List Insert puts a new default element at `index`, or at the end when `index` is not in the
      list; the elements before it stay, the ones from it on move one place right, and no other
      object changes. It goes on to a value write exactly when the value is not white space. */
  lemma ListInsertShifts(sch: Schema, h: Heap, list: Ref, index: nat, value: string)
    requires HeapOk(h) && IsList(h, list)
    requires CreateInstance(sch, h, h.objs[list].element).Ok?
    ensures var items := h.objs[list].items;
      var (v, h1) := CreateInstance(sch, h, h.objs[list].element).value;
      var r := EditList(sch, h, list, index, Insert, value);
      var items' := r.1.objs[list].items;
      var pos := if index < |items| then index else |items|;
      && |items'| == |items| + 1
      && items'[pos] == v
      && (forall j :: 0 <= j < pos ==> items'[j] == items[j])
      && (forall j :: pos <= j < |items| ==> items'[j + 1] == items[j])
      && (forall q :: q in h.objs && q != list ==> q in r.1.objs && r.1.objs[q] == h.objs[q])
      && (r.0 == Continue <==> !IsNullOrWhiteSpace(value))
      && (r.0 != Continue ==> r.0 == Halt(Edited))
  {
    var items := h.objs[list].items;
    var (v, h1) := CreateInstance(sch, h, h.objs[list].element).value;
    var items' := Inserted(items, index, v);
    if index < |items| {
      assert items' == items[..index] + [v] + items[index..];
      assert forall j :: 0 <= j < index ==> items'[j] == items[..index][j];
      assert items'[index + 1..] == items[index..];
    }
    assert list != h.next;
  }

  /** List Remove of an index in the list removes exactly that element and stops; no other
      object changes. Out of range it is refused and nothing changes. */
  lemma ListRemoveAt(sch: Schema, h: Heap, list: Ref, index: nat, value: string)
    requires IsList(h, list)
    ensures var items := h.objs[list].items;
      var r := EditList(sch, h, list, index, Remove, value);
      if index >= |items| then r == (Halt(Rejected(RemoveOutOfBounds)), h)
      else
        var items' := r.1.objs[list].items;
        && r.0 == Halt(Edited)
        && |items'| == |items| - 1
        && (forall j :: 0 <= j < index ==> items'[j] == items[j])
        && (forall j :: index <= j < |items'| ==> items'[j] == items[j + 1])
        && r.1.objs == h.objs[list := r.1.objs[list]]
  {
    var items := h.objs[list].items;
    if index < |items| {
      var items' := RemovedAt(items, index);
      assert forall j :: index <= j < |items'| ==> items'[j] == items[index + 1..][j - index];
    }
  }

  /** On the last segment an Overwrite or DefaultValue index is not checked against the list,
      and an Insert past the end appends; either way the element read past the end throws. Only an
      Insert changes the list first. */
  lemma TerminalIndexPastEndThrows(
    sch: Schema, h: Heap, list: Ref, segment: string, op: EditOperation, value: string, n: int)
    requires HeapOk(h) && IsList(h, list)
    requires ParseInt32(segment) == Some(n) && n >= |h.objs[list].items|
    requires op == Overwrite || op == DefaultValue
      || (op == Insert && n > |h.objs[list].items| && !IsNullOrWhiteSpace(value)
          && CreateInstance(sch, h, h.objs[list].element).Ok?)
    ensures var r := ProduceListElement(sch, h, list, segment, true, op, value);
      && r.0 == Stop(Threw(ArgumentOutOfRange))
      && (op != Insert ==> r.1 == h)
      && (op == Insert ==>
            r.1.objs[list].items == h.objs[list].items + [CreateInstance(sch, h, h.objs[list].element).value.0])
  {
    if op == Insert {
      ListInsertShifts(sch, h, list, n, value);
    }
  }

  /** Dictionary Insert: an existing key changes nothing; an absent key is refused for
      non-string keys and otherwise gets a new default value; nothing else changes. */
  lemma MapInsert(sch: Schema, h: Heap, dict: Ref, key: string, value: string)
    requires HeapOk(h) && IsDict(h, dict)
    ensures var d := h.objs[dict];
      var r := EditMap(sch, h, dict, key, Insert, value);
      && (HasKey(d, key) ==> r.1 == h && (r.0 == Continue <==> !IsNullOrWhiteSpace(value)))
      && (!HasKey(d, key) && d.key != StringKey ==> r == (Halt(Rejected(NonStringKey)), h))
      && (!HasKey(d, key) && d.key == StringKey && CreateInstance(sch, h, d.value).Ok? ==>
            var (v, h1) := CreateInstance(sch, h, d.value).value;
            && r.1.objs[dict].entries == d.entries[key := v]
            && (forall q :: q in h.objs && q != dict ==> q in r.1.objs && r.1.objs[q] == h.objs[q])
            && (r.0 == Continue <==> !IsNullOrWhiteSpace(value)))
  {
    assert dict != h.next;
  }

  /** Dictionary Remove: an absent key is refused; a present key is deleted, alone, and the walk
      stops. */
  lemma MapRemove(sch: Schema, h: Heap, dict: Ref, key: string, value: string)
    requires IsDict(h, dict)
    ensures var d := h.objs[dict];
      var r := EditMap(sch, h, dict, key, Remove, value);
      if !HasKey(d, key) then r == (Halt(Rejected(MissingKey)), h)
      else
        && r.0 == Halt(Edited)
        && r.1.objs[dict].entries == d.entries - {key}
        && r.1.objs == h.objs[dict := r.1.objs[dict]]
  {
  }

  /** The conditions under which a step of the walk fails; each leaves the heap as it was. */
  lemma StepFailures(
    sch: Schema, h: Heap, st: EditState, segments: seq<string>, i: nat, op: EditOperation, value: string)
    requires i < |segments|
    ensures var r := StepSegment(sch, h, st, segments, i, op, value);
      var t := RuntimeType(h, st.target);
      var last := i == |segments| - 1;
      var n := ParseInt32(segments[i]);
      && (t.None? ==> r == (Stop(Rejected(NullTarget)), h))
      && (t.Some? && (i == 0 || !(t.value.ListType? || t.value.DictType?))
            && FieldLookup(sch, t.value, segments[i]).None?
          ==> r == (Stop(Rejected(FieldNotFound)), h))
      && (i > 0 && t.Some? && t.value.ListType? && (n.None? || n.value < 0) ==> r == (Stop(Rejected(BadIndex)), h))
      && (i > 0 && t.Some? && t.value.ListType? && !last && n.Some? && n.value >= |h.objs[st.target.r].items|
          ==> r == (Stop(Rejected(BeyondEndOfList)), h))
      && (i > 0 && t.Some? && t.value.DictType? && !last && !HasKey(h.objs[st.target.r], segments[i])
          ==> r == (Stop(Rejected(MissingKey)), h))
      && (!last && r.0.Stop? ==>
            || t.None?
            || ((i == 0 || !(t.value.ListType? || t.value.DictType?)) && FieldLookup(sch, t.value, segments[i]).None?)
            || (i > 0 && t.value.ListType? && (n.None? || n.value < 0 || n.value >= |h.objs[st.target.r].items|))
            || (i > 0 && t.value.DictType? && !HasKey(h.objs[st.target.r], segments[i])))
  {
  }

  /** After a resolved segment exactly one addressing datum is live, and it is the one that fits
      the parent: an index in range for a list, a key for a dictionary, a field for a record. */
  predicate Addressed(h: Heap, st: EditState) {
    && st.parent.Ptr? && st.parent.r in h.objs && st.targetType.Some?
    && var p := h.objs[st.parent.r];
    && !p.StringSet?
    && (p.List? ==> 0 <= st.targetIndex < |p.items| && st.targetKey.None? && st.fieldInfo.None?)
    && (p.Dict? ==> st.targetIndex == -1 && st.targetKey.Some? && st.fieldInfo.None?)
    && (p.Record? ==> st.targetIndex == -1 && st.targetKey.None? && st.fieldInfo.Some?)
  }

  lemma ListElementAddressed(
    sch: Schema, h: Heap, list: Ref, segment: string, atEnd: bool, op: EditOperation, value: string)
    requires IsList(h, list)
    ensures var r := ProduceListElement(sch, h, list, segment, atEnd, op, value);
      r.0.Proceed? ==> Addressed(r.1, r.0.st)
  {
  }

  lemma MapEntryAddressed(
    sch: Schema, h: Heap, dict: Ref, key: string, atEnd: bool, op: EditOperation, value: string)
    requires IsDict(h, dict)
    ensures var r := ProduceMapEntry(sch, h, dict, key, atEnd, op, value);
      r.0.Proceed? ==> Addressed(r.1, r.0.st)
  {
  }

  lemma FieldAddressed(sch: Schema, h: Heap, target: Val, t: Type, name: string)
    requires RuntimeType(h, target) == Some(t)
    ensures var p := ProduceField(sch, h, target, t, name);
      p.Proceed? ==> Addressed(h, p.st)
  {
  }

  lemma StepAddressed(
    sch: Schema, h: Heap, st: EditState, segments: seq<string>, i: nat, op: EditOperation, value: string)
    requires i < |segments|
    ensures var r := StepSegment(sch, h, st, segments, i, op, value);
      r.0.Proceed? ==> Addressed(r.1, r.0.st)
  {
    var atEnd := i == |segments| - 1;
    match RuntimeType(h, st.target)
    case None =>
    case Some(t) =>
      if i > 0 && t.ListType? {
        ListElementAddressed(sch, h, st.target.r, segments[i], atEnd, op, value);
      } else if i > 0 && t.DictType? {
        MapEntryAddressed(sch, h, st.target.r, segments[i], atEnd, op, value);
      } else {
        FieldAddressed(sch, h, st.target, t, segments[i]);
      }
  }

  /** A walk over a non-empty path that succeeds leaves exactly one addressing datum live. */
  lemma {:induction false} WalkAddressed(
    sch: Schema, h: Heap, st: EditState, segments: seq<string>, i: nat, op: EditOperation, value: string)
    requires i < |segments|
    ensures var r := Walk(sch, h, st, segments, i, op, value);
      r.0.Proceed? ==> Addressed(r.1, r.0.st)
    decreases |segments| - i
  {
    StepAddressed(sch, h, st, segments, i, op, value);
    var (p, h1) := StepSegment(sch, h, st, segments, i, op, value);
    if p.Proceed? && i + 1 < |segments| {
      WalkAddressed(sch, h1, p.st, segments, i + 1, op, value);
    }
  }

  /** Given one live datum, ValidateEditState yields the setter for exactly that slot of the
      parent; it writes for a list and a record, and for a dictionary exactly when its keys are
      strings. */
  lemma ValidateAddressed(h: Heap, st: EditState, v: Val)
    requires Addressed(h, st)
    ensures var r := ValidateEditState(h, st);
      var p := h.objs[st.parent.r];
      && r.Ok?
      && (p.List? ==> r.value == ListSlot(st.parent.r, st.targetIndex))
      && (p.Dict? ==> r.value == DictSlot(st.parent.r, st.targetKey.value))
      && (p.Record? ==> r.value == FieldSlot(st.parent.r, st.fieldInfo.value))
      && (WriteSlot(h, r.value, v).Ok? <==> !(p.Dict? && p.key != StringKey))
  {
  }

  /** The slot validation of ProcessFieldEdit never fails after a successful walk. */
  lemma WalkThenValidate(sch: Schema, h: Heap, root: Val, path: string, op: EditOperation, value: string)
    ensures var r := WalkFieldPath(sch, h, root, path, op, value);
      r.0.Proceed? ==> Addressed(r.1, r.0.st) && ValidateEditState(r.1, r.0.st).Ok?
  {
    var r := WalkFieldPath(sch, h, root, path, op, value);
    WalkAddressed(sch, h, StartState(root), Split(path, '.'), 0, op, value);
    if r.0.Proceed? {
      ValidateAddressed(r.1, r.0.st, Null);
    }
  }

  /** A dictionary entry removed by one directive cannot be descended into by a later one. */
  lemma RemoveThenDescendFails(sch: Schema, h: Heap, dict: Ref, key: string, value: string, op: EditOperation)
    requires IsDict(h, dict) && HasKey(h.objs[dict], key)
    ensures var h1 := EditMap(sch, h, dict, key, Remove, value).1;
      IsDict(h1, dict) && ProduceMapEntry(sch, h1, dict, key, false, op, value) == (Stop(Rejected(MissingKey)), h1)
  {
  }
}
