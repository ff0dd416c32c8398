/** The keyed collection of configuration roots (dataInternal) and what a mod's overrides and edit
    scripts do to it: ApplyOverrides, ApplyEdit and ApplyEdits as functions of the collection and
    the object graph before the call. */
module ConfigMods {
  import opened Wrappers
  import opened ObjectGraph
  import opened PathWalker
  import opened FieldEdit

  /** A loaded config override: the key it replaces or adds, its type's name, and the container
      object it carries (None for null). */
  datatype ConfigOverride = ConfigOverride(key: string, typeName: string, container: Option<Ref>)

  /** One directive of an edit script; a null path or value is held as the empty text. */
  datatype FieldEditEntry = FieldEditEntry(path: string, value: string)

  /** The body of an edit script: the `removed` flag and the directives (None for null). */
  datatype ConfigEditData = ConfigEditData(removed: bool, edits: Option<seq<FieldEditEntry>>)

  /** A loaded edit script: the key it edits, its type's name, and its body (None for null). */
  datatype ConfigEdit = ConfigEdit(key: string, typeName: string, data: Option<ConfigEditData>)

  /** The roots of one data type by key, and the object graph they live in. */
  datatype Store = Store(data: map<string, Ref>, heap: Heap)

  /** An exception ended the run: its last outcome is one. */
  predicate Aborted(outcomes: seq<Outcome>) {
    |outcomes| > 0 && outcomes[|outcomes| - 1].Threw?
  }

  /** `obj is T` for the root type `dataType`. */
  predicate IsContainer(sch: Schema, h: Heap, r: Ref, dataType: string) {
    r in h.objs && h.objs[r].Record? && Assignable(sch, RecordType(h.objs[r].typeName), RecordType(dataType))
  }

  /** The overrides ApplyOverrides acts on: not null, with a container, of the data type, and whose
      container is an instance of it. */
  predicate Selected(sch: Schema, h: Heap, dataType: string, o: Option<ConfigOverride>) {
    && o.Some? && o.value.container.Some? && o.value.typeName == dataType
    && IsContainer(sch, h, o.value.container.value, dataType)
  }

  /** ApplyOverrides: each selected override, in order, replaces or adds its key's root. */
  function ApplyOverrides(
    sch: Schema, h: Heap, data: map<string, Ref>, dataType: string, overrides: seq<Option<ConfigOverride>>)
    : (r: map<string, Ref>)
    ensures data.Keys <= r.Keys
    ensures r.Keys <= data.Keys + (set o | o in overrides && Selected(sch, h, dataType, o) :: o.value.key)
    decreases |overrides|
  {
    if overrides == [] then data
    else
      var o := overrides[0];
      var data1 := if Selected(sch, h, dataType, o) then data[o.value.key := o.value.container.value] else data;
      ApplyOverrides(sch, h, data1, dataType, overrides[1..])
  }

  /** The container of the last selected override for `key`, if there is one. */
  function LastOverride(sch: Schema, h: Heap, dataType: string, overrides: seq<Option<ConfigOverride>>, key: string)
    : Option<Ref>
    decreases |overrides|
  {
    if overrides == [] then None
    else
      var later := LastOverride(sch, h, dataType, overrides[1..], key);
      if later.Some? then later
      else if Selected(sch, h, dataType, overrides[0]) && overrides[0].value.key == key
      then overrides[0].value.container
      else None
  }

  /** After the overrides, a key holds the container of the last selected override for it, or its
      old root when there is none; no key is lost and no other key is added. */
  lemma {:induction false} LastOverrideWins(
    sch: Schema, h: Heap, data: map<string, Ref>, dataType: string, overrides: seq<Option<ConfigOverride>>, key: string)
    ensures var r := ApplyOverrides(sch, h, data, dataType, overrides);
      var last := LastOverride(sch, h, dataType, overrides, key);
      && (key in r <==> key in data || last.Some?)
      && (last.Some? ==> r[key] == last.value)
      && (last.None? && key in data ==> r[key] == data[key])
    decreases |overrides|
  {
    if overrides != [] {
      var o := overrides[0];
      var data1 := if Selected(sch, h, dataType, o) then data[o.value.key := o.value.container.value] else data;
      LastOverrideWins(sch, h, data1, dataType, overrides[1..], key);
    }
  }

  /** The directives of an edit script, in order, against one root; the first exception ends the
      run, and the graph keeps what was done before it. */
  function RunDirectives(sch: Schema, h: Heap, root: Val, edits: seq<FieldEditEntry>): (r: (seq<Outcome>, Heap))
    ensures |r.0| <= |edits|
    ensures forall k :: 0 <= k < |r.0| - 1 ==> !r.0[k].Threw?
    ensures |r.0| < |edits| ==> Aborted(r.0)
    decreases |edits|
  {
    if edits == [] then ([], h)
    else
      var (o, h1) := ProcessFieldEdit(sch, h, root, edits[0].path, edits[0].value);
      if o.Threw? then ([o], h1)
      else
        var (os, h2) := RunDirectives(sch, h1, root, edits[1..]);
        ([o] + os, h2)
  }

  /** ApplyEdit: a missing key does nothing, a `removed` script deletes the key's root, an empty
      script does nothing, and otherwise its directives run against the key's root. */
  function ApplyEdit(sch: Schema, s: Store, key: string, data: ConfigEditData): (r: (seq<Outcome>, Store))
    ensures r.1.data == s.data || (key in s.data && data.removed && r.1.data == s.data - {key})
    ensures r.1.heap != s.heap ==> key in s.data && !data.removed
    ensures key !in s.data ==> r == ([], s)
    ensures key in s.data && data.removed ==> r == ([], s.(data := s.data - {key}))
    ensures key in s.data && !data.removed && (data.edits.None? || data.edits.value == []) ==> r == ([], s)
    ensures forall k :: 0 <= k < |r.0| - 1 ==> !r.0[k].Threw?
  {
    if key !in s.data then ([], s)
    else if data.removed then ([], s.(data := s.data - {key}))
    else if data.edits.None? || data.edits.value == [] then ([], s)
    else
      var (os, h) := RunDirectives(sch, s.heap, Ptr(s.data[key]), data.edits.value);
      (os, s.(heap := h))
  }

  /** The edit scripts ApplyEdits acts on: not null, with a body, of the data type. */
  predicate Chosen(dataType: string, e: Option<ConfigEdit>) {
    e.Some? && e.value.data.Some? && e.value.typeName == dataType
  }

  /** One entry of the edit list: a chosen script is applied, any other entry is passed over.
      A helper that names the body of ApplyEdits' loop. */
  function ApplyChosen(sch: Schema, s: Store, dataType: string, e: Option<ConfigEdit>): (r: (seq<Outcome>, Store))
    ensures !Chosen(dataType, e) ==> r == ([], s)
    ensures forall k :: 0 <= k < |r.0| - 1 ==> !r.0[k].Threw?
  {
    if Chosen(dataType, e) then ApplyEdit(sch, s, e.value.key, e.value.data.value) else ([], s)
  }

  /** ApplyEdits: every chosen script, in order, until one ends with an exception. */
  function ApplyEdits(sch: Schema, s: Store, dataType: string, edits: seq<Option<ConfigEdit>>)
    : (r: (seq<Outcome>, Store))
    ensures forall k :: 0 <= k < |r.0| - 1 ==> !r.0[k].Threw?
    decreases |edits|
  {
    if edits == [] then ([], s)
    else
      var (os, s1) := ApplyChosen(sch, s, dataType, edits[0]);
      if Aborted(os) then (os, s1)
      else
        var (os2, s2) := ApplyEdits(sch, s1, dataType, edits[1..]);
        ThrowOnlyLast(os, os2);
        (os + os2, s2)
  }

  /** Proof helper for ApplyEdits: joining a run without exceptions to a run that can only end
      with one. */
  lemma ThrowOnlyLast(os: seq<Outcome>, os2: seq<Outcome>)
    requires !Aborted(os) && forall k :: 0 <= k < |os| - 1 ==> !os[k].Threw?
    requires forall k :: 0 <= k < |os2| - 1 ==> !os2[k].Threw?
    ensures forall k :: 0 <= k < |os + os2| - 1 ==> !(os + os2)[k].Threw?
  {
  }

  /** Proof helper for the ApplyEdits loop: ApplyEdits on a suffix of the scripts, unfolded by
      one script. */
  lemma ApplyEditsStep(sch: Schema, s: Store, dataType: string, edits: seq<Option<ConfigEdit>>, i: nat)
    requires i < |edits|
    ensures var (os, s1) := ApplyChosen(sch, s, dataType, edits[i]);
      var rest := ApplyEdits(sch, s1, dataType, edits[i + 1..]);
      ApplyEdits(sch, s, dataType, edits[i..]) == if Aborted(os) then (os, s1) else (os + rest.0, rest.1)
  {
    assert edits[i..][0] == edits[i] && edits[i..][1..] == edits[i + 1..];
  }

  /** Steps run in order until one ends with an exception: the common shape of RunDirectives and
      ApplyEdits. */
  function RunSteps<E, S>(step: (S, E) -> (seq<Outcome>, S), s: S, es: seq<E>): (r: (seq<Outcome>, S))
    ensures es == [] ==> r == ([], s)
    decreases |es|
  {
    if es == [] then ([], s)
    else
      var (os, s1) := step(s, es[0]);
      if Aborted(os) then (os, s1)
      else
        var (rest, s2) := RunSteps(step, s1, es[1..]);
        (os + rest, s2)
  }

  /** Running `a + b` is running `a`, then, unless `a` ended with an exception, running `b` from
      where `a` left off. */
  lemma {:induction false} RunStepsInOrder<E, S>(step: (S, E) -> (seq<Outcome>, S), s: S, a: seq<E>, b: seq<E>)
    ensures var ra := RunSteps(step, s, a);
      var rb := RunSteps(step, ra.1, b);
      RunSteps(step, s, a + b) == if Aborted(ra.0) then ra else (ra.0 + rb.0, rb.1)
    decreases |a|
  {
    if a == [] {
      assert a + b == b;
      assert [] + RunSteps(step, s, b).0 == RunSteps(step, s, b).0;
    } else {
      assert (a + b)[0] == a[0] && (a + b)[1..] == a[1..] + b;
      var (os, s1) := step(s, a[0]);
      if !Aborted(os) {
        RunStepsInOrder(step, s1, a[1..], b);
        var ra' := RunSteps(step, s1, a[1..]);
        var rb := RunSteps(step, ra'.1, b);
        assert os + (ra'.0 + rb.0) == (os + ra'.0) + rb.0;
        assert Aborted(os + ra'.0) <==> Aborted(ra'.0);
      }
    }
  }

  /** One directive as a step. */
  function DirectiveStep(sch: Schema, root: Val): (Heap, FieldEditEntry) -> (seq<Outcome>, Heap) {
    (h: Heap, e: FieldEditEntry) =>
      var step := ProcessFieldEdit(sch, h, root, e.path, e.value);
      ([step.0], step.1)
  }

  /** One edit script as a step. */
  function ScriptStep(sch: Schema, dataType: string): (Store, Option<ConfigEdit>) -> (seq<Outcome>, Store) {
    (s: Store, e: Option<ConfigEdit>) => ApplyChosen(sch, s, dataType, e)
  }

  /** Proof helper: RunDirectives is RunSteps over DirectiveStep. */
  lemma {:induction false} RunDirectivesSteps(sch: Schema, h: Heap, root: Val, edits: seq<FieldEditEntry>)
    ensures RunDirectives(sch, h, root, edits) == RunSteps(DirectiveStep(sch, root), h, edits)
    decreases |edits|
  {
    if edits != [] {
      var step := ProcessFieldEdit(sch, h, root, edits[0].path, edits[0].value);
      assert DirectiveStep(sch, root)(h, edits[0]) == ([step.0], step.1);
      RunDirectivesSteps(sch, step.1, root, edits[1..]);
    }
  }

  /** Proof helper: ApplyEdits is RunSteps over ScriptStep. */
  lemma {:induction false} ApplyEditsSteps(sch: Schema, s: Store, dataType: string, edits: seq<Option<ConfigEdit>>)
    ensures ApplyEdits(sch, s, dataType, edits) == RunSteps(ScriptStep(sch, dataType), s, edits)
    decreases |edits|
  {
    if edits != [] {
      var step := ApplyChosen(sch, s, dataType, edits[0]);
      assert ScriptStep(sch, dataType)(s, edits[0]) == step;
      ApplyEditsSteps(sch, step.1, dataType, edits[1..]);
    }
  }

  /** Directives run in order: running `a + b` is running `a`, then, unless `a` ended with an
      exception, running `b` on the graph `a` left. */
  lemma RunDirectivesInOrder(sch: Schema, h: Heap, root: Val, a: seq<FieldEditEntry>, b: seq<FieldEditEntry>)
    ensures var ra := RunDirectives(sch, h, root, a);
      var rb := RunDirectives(sch, ra.1, root, b);
      RunDirectives(sch, h, root, a + b) == if Aborted(ra.0) then ra else (ra.0 + rb.0, rb.1)
  {
    RunDirectivesSteps(sch, h, root, a);
    RunDirectivesSteps(sch, h, root, a + b);
    RunDirectivesSteps(sch, RunDirectives(sch, h, root, a).1, root, b);
    RunStepsInOrder(DirectiveStep(sch, root), h, a, b);
  }

  /** Scripts run in order: applying `a + b` is applying `a`, then, unless a script of `a` ended
      with an exception, applying `b` to the store `a` left; after an exception no later script,
      not even a removal, has any effect. */
  lemma ApplyEditsInOrder(sch: Schema, s: Store, dataType: string, a: seq<Option<ConfigEdit>>, b: seq<Option<ConfigEdit>>)
    ensures var ra := ApplyEdits(sch, s, dataType, a);
      var rb := ApplyEdits(sch, ra.1, dataType, b);
      ApplyEdits(sch, s, dataType, a + b) == if Aborted(ra.0) then ra else (ra.0 + rb.0, rb.1)
  {
    ApplyEditsSteps(sch, s, dataType, a);
    ApplyEditsSteps(sch, s, dataType, a + b);
    ApplyEditsSteps(sch, ApplyEdits(sch, s, dataType, a).1, dataType, b);
    RunStepsInOrder(ScriptStep(sch, dataType), s, a, b);
  }

  /** Edit scripts change the objects the roots refer to, never which root a key refers to: keys
      are only ever removed. */
  lemma {:induction false} EditsOnlyRemoveKeys(sch: Schema, s: Store, dataType: string, edits: seq<Option<ConfigEdit>>)
    ensures var r := ApplyEdits(sch, s, dataType, edits).1;
      r.data.Keys <= s.data.Keys && forall k :: k in r.data ==> r.data[k] == s.data[k]
    decreases |edits|
  {
    if edits != [] {
      var (os, s1) := ApplyChosen(sch, s, dataType, edits[0]);
      if !Aborted(os) {
        EditsOnlyRemoveKeys(sch, s1, dataType, edits[1..]);
      }
    }
  }

  /** Once a script removes a root, a later script for the same key does nothing. */
  lemma RemovedRootIgnoresLaterEdits(sch: Schema, s: Store, key: string, first: ConfigEditData, later: ConfigEditData)
    requires first.removed
    ensures var s1 := ApplyEdit(sch, s, key, first).1;
      key !in s1.data && ApplyEdit(sch, s1, key, later) == ([], s1)
  {
  }

  /** Overrides and then edit scripts touch only the roots of their own data type: a run with no
      selected override and no chosen script changes nothing. */
  lemma {:induction false} OtherTypesUntouched(
    sch: Schema, s: Store, dataType: string, overrides: seq<Option<ConfigOverride>>, edits: seq<Option<ConfigEdit>>)
    requires forall k :: 0 <= k < |overrides| ==> !Selected(sch, s.heap, dataType, overrides[k])
    requires forall k :: 0 <= k < |edits| ==> !Chosen(dataType, edits[k])
    ensures ApplyOverrides(sch, s.heap, s.data, dataType, overrides) == s.data
    ensures ApplyEdits(sch, s, dataType, edits) == ([], s)
    decreases |overrides| + |edits|
  {
    if overrides != [] {
      OtherTypesUntouched(sch, s, dataType, overrides[1..], edits);
    } else if edits != [] {
      assert !Chosen(dataType, edits[0]);
      OtherTypesUntouched(sch, s, dataType, overrides, edits[1..]);
      var none: seq<Outcome> := [];
      assert none + none == none;
    }
  }
}
