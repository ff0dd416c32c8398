/** What the value updaters and ProcessFieldEdit guarantee: the literals they accept and the
    round trips they complete, the string-set edits and their inverses, the default-instance
    tail, and whole directives against a record field or a dictionary entry. */
module FieldEditProperties {
  import opened Wrappers
  import opened Strings
  import opened Numbers
  import opened EditOperations
  import opened ObjectGraph
  import opened PathWalker
  import opened FieldEdit
  import opened WalkerProperties

  /** An integer printed by int.ToString() is read back by the int updater. */
  lemma IntRoundTrip(op: EditOperation, n: int)
    requires op != DefaultValue
    requires Int32Min <= n <= Int32Max
    ensures IntValue(op, FormatInt32(n)) == Ok(Int(n))
  {
    ParseFormat(n);
  }

  /** A vector printed as `(c1,...,cN)` from component texts that each parse, and hold no comma,
      is read back component by component. */
  lemma VectorRoundTrip(sch: Schema, kind: VectorKind, texts: seq<string>, cs: seq<Float>)
    requires |texts| == Components(kind) && |cs| == |texts|
    requires forall k :: 0 <= k < |texts| ==> ',' !in texts[k] && sch.parseFloat(texts[k]) == Some(cs[k])
    ensures ParseVector(sch, kind, "(" + Join(texts, ',') + ")") == Ok(Vec(kind, cs))
  {
    var inner := Join(texts, ',');
    var raw := "(" + inner + ")";
    assert raw[1..|raw| - 1] == inner;
    SplitJoin(texts, ',');
    var parsed := ParseComponents(sch.parseFloat, texts);
    assert parsed.Some?;
    assert parsed.value == cs;
  }

  /** A vector literal with the wrong number of components is refused whatever the components. */
  lemma VectorArityRefused(sch: Schema, kind: VectorKind, texts: seq<string>)
    requires |texts| >= 1 && |texts| != Components(kind)
    requires forall k :: 0 <= k < |texts| ==> ',' !in texts[k]
    ensures ParseVector(sch, kind, "(" + Join(texts, ',') + ")") == Err(VectorArity)
  {
    var raw := "(" + Join(texts, ',') + ")";
    assert raw[1..|raw| - 1] == Join(texts, ',');
    SplitJoin(texts, ',');
  }

  /** Inserting a string into a set twice changes it once: the second Insert is refused and leaves
      the set as the first one left it. */
  lemma HashSetInsertIdempotent(h: Heap, r: Ref, value: string)
    requires r in h.objs && h.objs[r].StringSet?
    ensures var h1 := UpdateHashSet(h, Ptr(r), Insert, value).1;
      && UpdateHashSet(h1, Ptr(r), Insert, value) == (Rejected(SetValuePresent), h1)
      && h1.objs[r].members == h.objs[r].members + {value}
  {
    var h1 := UpdateHashSet(h, Ptr(r), Insert, value).1;
    if value in h.objs[r].members {
      assert h.objs[r].members + {value} == h.objs[r].members;
    }
  }

  /** Removing a string that an Insert just added gives back the graph as it was. */
  lemma HashSetInsertThenRemove(h: Heap, r: Ref, value: string)
    requires r in h.objs && h.objs[r].StringSet? && value !in h.objs[r].members
    ensures var (o1, h1) := UpdateHashSet(h, Ptr(r), Insert, value);
      var (o2, h2) := UpdateHashSet(h1, Ptr(r), Remove, value);
      o1 == Edited && o2 == Edited && h2 == h
  {
    var h1 := UpdateHashSet(h, Ptr(r), Insert, value).1;
    var h2 := UpdateHashSet(h1, Ptr(r), Remove, value).1;
    assert h.objs[r].members + {value} - {value} == h.objs[r].members;
    assert h2.objs == h.objs;
  }

  /** Inserting a string that a Remove just took out gives back the graph as it was. */
  lemma HashSetRemoveThenInsert(h: Heap, r: Ref, value: string)
    requires r in h.objs && h.objs[r].StringSet? && value in h.objs[r].members
    ensures var (o1, h1) := UpdateHashSet(h, Ptr(r), Remove, value);
      var (o2, h2) := UpdateHashSet(h1, Ptr(r), Insert, value);
      o1 == Edited && o2 == Edited && h2 == h
  {
    var h1 := UpdateHashSet(h, Ptr(r), Remove, value).1;
    var h2 := UpdateHashSet(h1, Ptr(r), Insert, value).1;
    assert h.objs[r].members - {value} + {value} == h.objs[r].members;
    assert h2.objs == h.objs;
  }

  /** `!tag` with a registered tag fills the field with a new object of the tag's record type, in
      its default state; no existing object other than the field's owner changes. */
  lemma TaggedDefaultInstance(sch: Schema, h: Heap, st: EditState, declared: Type, tag: string)
    requires HeapOk(h)
    requires st.fieldInfo.Some? && st.parent.Ptr? && st.parent.r in h.objs && h.objs[st.parent.r].Record?
    requires tag in sch.tags && sch.tags[tag].RecordType? && sch.tags[tag].name !in sch.abstractTypes
    requires Assignable(sch, sch.tags[tag], st.fieldInfo.value.fieldType)
    ensures var r := DefaultInstanceEdit(sch, h, st, declared, DefaultValue, "!" + tag);
      var owner := st.parent.r;
      var name := sch.tags[tag].name;
      && r.0 == Edited
      && r.1.objs[owner].fields == h.objs[owner].fields[st.fieldInfo.value.name := Ptr(h.next)]
      && r.1.objs[h.next] == Record(name, DefaultFields(sch, name))
      && (forall q :: q in h.objs && q != owner ==> q in r.1.objs && r.1.objs[q] == h.objs[q])
  {
    var value := "!" + tag;
    assert StartsWith(value, "!") && value[1..] == tag;
    assert st.parent.r != h.next;
  }

  /** Without a tag the new object is of the field's declared type. */
  lemma UntaggedDefaultInstance(sch: Schema, h: Heap, st: EditState, name: string, value: string)
    requires HeapOk(h)
    requires st.fieldInfo.Some? && st.fieldInfo.value.fieldType == RecordType(name)
    requires st.parent.Ptr? && st.parent.r in h.objs && h.objs[st.parent.r].Record?
    requires name !in sch.abstractTypes && !StartsWith(value, "!")
    ensures var r := DefaultInstanceEdit(sch, h, st, RecordType(name), DefaultValue, value);
      && r.0 == Edited
      && r.1.objs[st.parent.r].fields == h.objs[st.parent.r].fields[st.fieldInfo.value.name := Ptr(h.next)]
      && r.1.objs[h.next] == Record(name, DefaultFields(sch, name))
  {
    assert st.parent.r != h.next;
  }

  /** An unregistered tag is refused and nothing is created. */
  lemma UnknownTagRefused(sch: Schema, h: Heap, st: EditState, declared: Type, tag: string)
    requires st.fieldInfo.Some? && tag !in sch.tags
    ensures DefaultInstanceEdit(sch, h, st, declared, DefaultValue, "!" + tag) == (Rejected(UnknownTag), h)
  {
    var value := "!" + tag;
    assert StartsWith(value, "!") && value[1..] == tag;
  }

  /** Only a value ending with none of the operator tokens is an Overwrite, and it is kept as it
      is; a value whose last character cannot end a token is one. */
  lemma PlainValueOverwrites(raw: string)
    requires |raw| > 0 && raw[|raw| - 1] !in "+-d"
    ensures ParseOperation(raw) == (Overwrite, raw)
  {
    if |raw| >= 2 {
      assert raw[|raw| - 2..][1] == raw[|raw| - 1];
    }
  }

  /** A whole directive on a scalar or vector field of the root record: the updater's verdict,
      and on success that one field of the root holds the parsed value and nothing else changes. */
  lemma RootFieldEdit(sch: Schema, h: Heap, root: Ref, field: string, t: Type, raw: string)
    requires root in h.objs && h.objs[root].Record?
    requires FieldLookup(sch, RecordType(h.objs[root].typeName), field) == Some(t)
    requires HasUpdater(t) && t != StringSetType
    requires |field| > 0 && '.' !in field && |raw| > 0
    ensures var (op, value) := ParseOperation(raw);
      var u := UpdateValue(sch, t, op, value);
      var r := ProcessFieldEdit(sch, h, Ptr(root), field, raw);
      && (u.Err? ==> r == (Rejected(u.error), h))
      && (u.Ok? ==>
            r == (Edited, h.(objs := h.objs[root := h.objs[root].(fields := h.objs[root].fields[field := u.value])])))
  {
    var (op, value) := ParseOperation(raw);
    SplitWithoutSeparator(field, '.');
    var st := StartState(Ptr(root));
    var step := StepSegment(sch, h, st, [field], 0, op, value);
    assert step.1 == h && step.0.Proceed?;
    var st1 := step.0.st;
    assert st1.parent == Ptr(root) && st1.fieldInfo == Some(FieldInfo(field, t)) && st1.targetType == Some(t);
    assert Walk(sch, h, st, [field], 0, op, value) == (Proceed(st1), h);
    assert ValidateEditState(h, st1) == Ok(FieldSlot(root, FieldInfo(field, t)));
  }

  /** Overwriting an integer field with what int.ToString() prints stores that integer. */
  lemma OverwriteIntField(sch: Schema, h: Heap, root: Ref, field: string, n: int)
    requires root in h.objs && h.objs[root].Record?
    requires FieldLookup(sch, RecordType(h.objs[root].typeName), field) == Some(IntType)
    requires |field| > 0 && '.' !in field
    requires Int32Min <= n <= Int32Max
    ensures ProcessFieldEdit(sch, h, Ptr(root), field, FormatInt32(n))
      == (Edited, h.(objs := h.objs[root := h.objs[root].(fields := h.objs[root].fields[field := Int(n)])]))
  {
    var raw := FormatInt32(n);
    assert IsDigit(raw[|raw| - 1]);
    PlainValueOverwrites(raw);
    IntRoundTrip(Overwrite, n);
    RootFieldEdit(sch, h, root, field, IntType, raw);
  }

  /** A two-segment path names a field of the root, then an entry or element inside it. */
  lemma TwoSegmentPath(field: string, key: string)
    requires '.' !in field && '.' !in key
    ensures Split(field + "." + key, '.') == [field, key]
  {
    assert field + "." + key == field + ['.'] + key;
    SplitAtSeparator(field, key, '.');
    SplitWithoutSeparator(key, '.');
  }

  /** The walk of a two-segment path through a dictionary held in a field of the root: when
      EditMap lets the entry through, the walk ends on that entry of the dictionary EditMap left. */
  lemma WalkToDictionaryEntry(
    sch: Schema, h: Heap, root: Ref, field: string, dict: Ref, key: string, op: EditOperation, value: string)
    requires root in h.objs && h.objs[root].Record?
    requires FieldLookup(sch, RecordType(h.objs[root].typeName), field) == Some(DictType(StringKey, IntType))
    requires field in h.objs[root].fields && h.objs[root].fields[field] == Ptr(dict)
    requires dict in h.objs && h.objs[dict].Dict? && h.objs[dict] == Dict(StringKey, IntType, h.objs[dict].entries)
    requires EditMap(sch, h, dict, key, op, value).0 == Continue
    ensures var h1 := EditMap(sch, h, dict, key, op, value).1;
      Walk(sch, h, StartState(Ptr(root)), [field, key], 0, op, value)
        == (Proceed(EditState(EntryValue(h1.objs[dict], key), Ptr(dict), -1, Some(key), None, Some(IntType))), h1)
  {
    var segments := [field, key];
    var dt := DictType(StringKey, IntType);
    var st1 := EditState(Ptr(dict), Ptr(root), -1, None, Some(FieldInfo(field, dt)), Some(dt));
    assert StepSegment(sch, h, StartState(Ptr(root)), segments, 0, op, value) == (Proceed(st1), h);
    var h1 := EditMap(sch, h, dict, key, op, value).1;
    var st2 := EditState(EntryValue(h1.objs[dict], key), Ptr(dict), -1, Some(key), None, Some(IntType));
    assert StepSegment(sch, h, st1, segments, 1, op, value) == (Proceed(st2), h1);
    assert Walk(sch, h1, st2, segments, 2, op, value) == (Proceed(st2), h1);
  }

  /** Proof helper: a directive whose walk ends on a slot that ValidateEditState accepts is
      handed to that slot's updater. */
  lemma ProcessThroughSlot(sch: Schema, h: Heap, root: Val, path: string, raw: string, st: EditState, h1: Heap, slot: Slot)
    requires |path| > 0 && |raw| > 0
    requires WalkFieldPath(sch, h, root, path, ParseOperation(raw).0, ParseOperation(raw).1) == (Proceed(st), h1)
    requires ValidateEditState(h1, st) == Ok(slot)
    ensures ProcessFieldEdit(sch, h, root, path, raw)
      == ApplyToSlot(sch, h1, st, slot, ParseOperation(raw).0, ParseOperation(raw).1)
  {
  }

  /** The integer updater on an entry of a string-keyed dictionary: a value that does not parse
      is refused with nothing written, and a parsed one is stored under the key. */
  lemma IntEntryUpdate(sch: Schema, h: Heap, st: EditState, dict: Ref, key: string, op: EditOperation, value: string)
    requires dict in h.objs && h.objs[dict].Dict? && h.objs[dict].key == StringKey
    requires st.targetType == Some(IntType)
    ensures ApplyToSlot(sch, h, st, DictSlot(dict, key), op, value)
      == match IntValue(op, value)
         case Err(e) => (Rejected(e), h)
         case Ok(v) => (Edited, h.(objs := h.objs[dict := h.objs[dict].(entries := h.objs[dict].entries[key := v])]))
  {
  }

  /** Overwriting an absent key of a string-keyed dictionary of integers is not refused: the walk
      reads null for it, and the setter adds the key with the parsed value. */
  lemma OverwriteMissingKeyAddsEntry(sch: Schema, h: Heap, root: Ref, field: string, dict: Ref, key: string, n: int)
    requires root in h.objs && h.objs[root].Record?
    requires FieldLookup(sch, RecordType(h.objs[root].typeName), field) == Some(DictType(StringKey, IntType))
    requires field in h.objs[root].fields && h.objs[root].fields[field] == Ptr(dict)
    requires dict in h.objs && h.objs[dict].Dict? && h.objs[dict] == Dict(StringKey, IntType, h.objs[dict].entries)
    requires key !in h.objs[dict].entries
    requires |field| > 0 && '.' !in field && '.' !in key
    requires Int32Min <= n <= Int32Max
    ensures ProcessFieldEdit(sch, h, Ptr(root), field + "." + key, FormatInt32(n))
      == (Edited, h.(objs := h.objs[dict := Dict(StringKey, IntType, h.objs[dict].entries[key := Int(n)])]))
  {
    var raw := FormatInt32(n);
    assert IsDigit(raw[|raw| - 1]);
    PlainValueOverwrites(raw);
    IntRoundTrip(Overwrite, n);
    TwoSegmentPath(field, key);
    WalkToDictionaryEntry(sch, h, root, field, dict, key, Overwrite, raw);
    var st := EditState(Null, Ptr(dict), -1, Some(key), None, Some(IntType));
    assert WalkFieldPath(sch, h, Ptr(root), field + "." + key, Overwrite, raw) == (Proceed(st), h);
    assert ValidateEditState(h, st) == Ok(DictSlot(dict, key));
    ProcessThroughSlot(sch, h, Ptr(root), field + "." + key, raw, st, h, DictSlot(dict, key));
    IntEntryUpdate(sch, h, st, dict, key, Overwrite, raw);
  }

  /** Insert of a new key into a string-keyed dictionary of integers, with a value that does not
      parse: the directive is refused, yet the new entry stays, at 0. */
  lemma InsertedEntrySurvivesRefusal(
    sch: Schema, h: Heap, root: Ref, field: string, dict: Ref, key: string, raw: string)
    requires root in h.objs && h.objs[root].Record?
    requires FieldLookup(sch, RecordType(h.objs[root].typeName), field) == Some(DictType(StringKey, IntType))
    requires field in h.objs[root].fields && h.objs[root].fields[field] == Ptr(dict)
    requires dict in h.objs && h.objs[dict].Dict? && h.objs[dict] == Dict(StringKey, IntType, h.objs[dict].entries)
    requires key !in h.objs[dict].entries
    requires |field| > 0 && '.' !in field && '.' !in key
    requires ParseOperation(raw).0 == Insert
    requires !IsNullOrWhiteSpace(ParseOperation(raw).1) && ParseInt32(ParseOperation(raw).1).None?
    ensures var r := ProcessFieldEdit(sch, h, Ptr(root), field + "." + key, raw);
      && r.0 == Rejected(Unparsable)
      && r.1.objs == h.objs[dict := Dict(StringKey, IntType, h.objs[dict].entries[key := Int(0)])]
  {
    var (op, value) := ParseOperation(raw);
    TwoSegmentPath(field, key);
    var h1 := h.(objs := h.objs[dict := Dict(StringKey, IntType, h.objs[dict].entries[key := Int(0)])]);
    assert EditMap(sch, h, dict, key, op, value) == (Continue, h1);
    WalkToDictionaryEntry(sch, h, root, field, dict, key, op, value);
    var st := EditState(Int(0), Ptr(dict), -1, Some(key), None, Some(IntType));
    assert WalkFieldPath(sch, h, Ptr(root), field + "." + key, op, value) == (Proceed(st), h1);
    assert ValidateEditState(h1, st) == Ok(DictSlot(dict, key));
    ProcessThroughSlot(sch, h, Ptr(root), field + "." + key, raw, st, h1, DictSlot(dict, key));
    IntEntryUpdate(sch, h1, st, dict, key, op, value);
  }
}
