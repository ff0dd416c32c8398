/** UnitPresets: the trailing-slash toggle on the unit preset path, which keeps the path table and
    its inverse consistent, and the removal of the unit preset change files from a mod's loaded
    data once they have been applied. */
module UnitPresets {
  import opened Wrappers
  import opened Strings
  import opened ConfigMods

  /** The key of the unit preset path in the path table. */
  const UnitPresetPathKey: string := "DataContainerUnitPreset"

  /** The name of the unit preset data type, `typeof(DataContainerUnitPreset)`. */
  const UnitPresetType: string := "DataContainerUnitPreset"

  /** The path table (paths) and its inverse (pathsInverted). */
  datatype Paths = Paths(paths: map<string, string>, inverted: map<string, string>)

  /** The inverse table maps the unit preset path back to its key. */
  predicate Consistent(p: Paths) {
    UnitPresetPathKey in p.paths && p.paths[UnitPresetPathKey] in p.inverted
    && p.inverted[p.paths[UnitPresetPathKey]] == UnitPresetPathKey
  }

  /** Replace the path `v` by `v'` in both tables: drop `v` from the inverse, store `v'`, then
      add `v'` to the inverse, which throws when `v'` is already a key there. */
  function Repath(p: Paths, v: string, v': string): (r: (Option<Exception>, Paths))
    requires UnitPresetPathKey in p.paths
    ensures r.1.paths == p.paths[UnitPresetPathKey := v']
    ensures r.0.None? <==> v' !in p.inverted - {v}
    ensures r.0.None? ==> r.1.inverted == (p.inverted - {v})[v' := UnitPresetPathKey]
    ensures r.0.Some? ==> r.0.value == Argument && r.1.inverted == p.inverted - {v}
  {
    var inverted := p.inverted - {v};
    var paths := p.paths[UnitPresetPathKey := v'];
    if v' in inverted then (Some(Argument), Paths(paths, inverted))
    else (None, Paths(paths, inverted[v' := UnitPresetPathKey]))
  }

  /** ModifyUnitPresetPath: append "/" to the unit preset path unless it already ends with one. */
  function Modified(p: Paths): (r: (Option<Exception>, Paths))
    ensures UnitPresetPathKey !in p.paths ==> r == (Some(KeyNotFound), p)
    ensures UnitPresetPathKey in p.paths && EndsWith(p.paths[UnitPresetPathKey], "/") ==> r == (None, p)
    ensures r.1 != p ==> UnitPresetPathKey in r.1.paths && EndsWith(r.1.paths[UnitPresetPathKey], "/")
    ensures UnitPresetPathKey in p.paths && !EndsWith(p.paths[UnitPresetPathKey], "/") ==>
      var v := p.paths[UnitPresetPathKey];
      r == Repath(p, v, v + "/")
  {
    if UnitPresetPathKey !in p.paths then (Some(KeyNotFound), p)
    else
      var v := p.paths[UnitPresetPathKey];
      if EndsWith(v, "/") then (None, p)
      else
        var v' := v + "/";
        assert v'[|v'| - 1..] == "/";
        Repath(p, v, v')
  }

  /** UnmodifyUnitPresetPath: strip every trailing "/" from the unit preset path, if it has one. */
  function Unmodified(p: Paths): (r: (Option<Exception>, Paths))
    ensures UnitPresetPathKey !in p.paths ==> r == (Some(KeyNotFound), p)
    ensures UnitPresetPathKey in p.paths && !EndsWith(p.paths[UnitPresetPathKey], "/") ==> r == (None, p)
    ensures r.1 != p ==> UnitPresetPathKey in r.1.paths && !EndsWith(r.1.paths[UnitPresetPathKey], "/")
    ensures UnitPresetPathKey in p.paths && EndsWith(p.paths[UnitPresetPathKey], "/") ==>
      var v := p.paths[UnitPresetPathKey];
      r == Repath(p, v, TrimEnd(v, '/'))
  {
    if UnitPresetPathKey !in p.paths then (Some(KeyNotFound), p)
    else
      var v := p.paths[UnitPresetPathKey];
      if !EndsWith(v, "/") then (None, p)
      else
        var v' := TrimEnd(v, '/');
        assert |v'| > 0 ==> v'[|v'| - 1..] == [v'[|v'| - 1]];
        Repath(p, v, v')
  }

  /** Only the unit preset entry of the path table and the two inverse entries for its old and new
      value can change. */
  lemma ToggleTouchesOnlyItsEntries(p: Paths)
    ensures var m := Modified(p).1;
      var u := Unmodified(p).1;
      && (forall k :: k != UnitPresetPathKey && k in p.paths ==> k in m.paths && m.paths[k] == p.paths[k])
      && (forall k :: k != UnitPresetPathKey && k in p.paths ==> k in u.paths && u.paths[k] == p.paths[k])
      && (UnitPresetPathKey in p.paths ==>
            forall k :: k in p.inverted && k != p.paths[UnitPresetPathKey] && k != m.paths[UnitPresetPathKey]
              ==> k in m.inverted && m.inverted[k] == p.inverted[k])
      && (UnitPresetPathKey in p.paths ==>
            forall k :: k in p.inverted && k != p.paths[UnitPresetPathKey] && k != u.paths[UnitPresetPathKey]
              ==> k in u.inverted && u.inverted[k] == p.inverted[k])
  {
    if UnitPresetPathKey in p.paths {
      var v := p.paths[UnitPresetPathKey];
      if EndsWith(v, "/") {
        assert Modified(p).1 == p;
        assert Unmodified(p) == Repath(p, v, TrimEnd(v, '/'));
      } else {
        assert Unmodified(p).1 == p;
        assert Modified(p) == Repath(p, v, v + "/");
      }
    }
  }

  /** Modify keeps the tables consistent, provided the new path is not already a key of the
      inverse table. */
  lemma ModifyKeepsConsistent(p: Paths)
    requires Consistent(p)
    requires p.paths[UnitPresetPathKey] + "/" !in p.inverted
    ensures Modified(p).0.None? && Consistent(Modified(p).1)
  {
  }

  /** Unmodify keeps the tables consistent, provided the new path is not already a key of the
      inverse table. */
  lemma UnmodifyKeepsConsistent(p: Paths)
    requires Consistent(p)
    requires TrimEnd(p.paths[UnitPresetPathKey], '/') !in p.inverted
    ensures Unmodified(p).0.None? && Consistent(Unmodified(p).1)
  {
  }

  /** Modify then Unmodify gives back both tables when the path did not end with "/" and the
      tables were consistent. */
  lemma ModifyUnmodifyRoundTrip(p: Paths)
    requires Consistent(p) && !EndsWith(p.paths[UnitPresetPathKey], "/")
    requires p.paths[UnitPresetPathKey] + "/" !in p.inverted
    ensures Modified(p).0.None? && Unmodified(Modified(p).1) == (None, p)
  {
    var v := p.paths[UnitPresetPathKey];
    var v' := v + "/";
    assert v == [] || v[|v| - 1] != '/' by {
      if v != [] {
        assert v[|v| - 1..] == [v[|v| - 1]];
      }
    }
    TrimEndAppended(v, '/', 1);
    assert v + Repeat('/', 1) == v';
    assert v'[|v'| - 1..] == "/";
    var m := Modified(p).1;
    assert m == Paths(p.paths[UnitPresetPathKey := v'], (p.inverted - {v})[v' := UnitPresetPathKey]);
    assert Unmodified(m) == Repath(m, v', v);
    assert m.inverted - {v'} == p.inverted - {v};
    assert p.paths[UnitPresetPathKey := v'][UnitPresetPathKey := v] == p.paths;
    assert (p.inverted - {v})[v := UnitPresetPathKey] == p.inverted;
  }

  /** ... and only then: a path that already ends with "/" comes back without its trailing
      slashes. */
  lemma SlashedPathDoesNotRoundTrip(p: Paths)
    requires UnitPresetPathKey in p.paths && EndsWith(p.paths[UnitPresetPathKey], "/")
    ensures Unmodified(Modified(p).1).1.paths[UnitPresetPathKey] != p.paths[UnitPresetPathKey]
  {
    var v := p.paths[UnitPresetPathKey];
    assert v[|v| - 1] == v[|v| - 1..][0];
  }

  /** The live paths container: ModifyUnitPresetPath and UnmodifyUnitPresetPath change its two
      dictionaries in place, step by step. */
  class PathsData {
    var paths: map<string, string>
    var pathsInverted: map<string, string>

    function Model(): Paths
      reads this
    {
      Paths(paths, pathsInverted)
    }

    constructor (p: Paths)
      ensures Model() == p
    {
      paths := p.paths;
      pathsInverted := p.inverted;
    }

    method ModifyUnitPresetPath() returns (ex: Option<Exception>)
      modifies this
      ensures (ex, Model()) == Modified(old(Model()))
    {
      if UnitPresetPathKey !in paths {
        return Some(KeyNotFound);
      }
      var v := paths[UnitPresetPathKey];
      if EndsWith(v, "/") {
        return None;
      }
      pathsInverted := pathsInverted - {v};
      v := v + "/";
      paths := paths[UnitPresetPathKey := v];
      if v in pathsInverted {
        return Some(Argument);
      }
      pathsInverted := pathsInverted[v := UnitPresetPathKey];
      return None;
    }

    method UnmodifyUnitPresetPath() returns (ex: Option<Exception>)
      modifies this
      ensures (ex, Model()) == Unmodified(old(Model()))
    {
      if UnitPresetPathKey !in paths {
        return Some(KeyNotFound);
      }
      var v := paths[UnitPresetPathKey];
      if !EndsWith(v, "/") {
        return None;
      }
      pathsInverted := pathsInverted - {v};
      v := TrimEnd(v, '/');
      paths := paths[UnitPresetPathKey := v];
      if v in pathsInverted {
        return Some(Argument);
      }
      pathsInverted := pathsInverted[v := UnitPresetPathKey];
      return None;
    }
  }

  /** `list.Where(m => m.type != t).ToList()`: the entries of other types, in order; a null entry
      throws when its type is read. */
  function WithoutType<T(!new)>(entries: seq<Option<T>>, typeOf: T -> string, t: string): (r: Result<seq<Option<T>>, Exception>)
    ensures r.Ok? <==> forall k :: 0 <= k < |entries| ==> entries[k].Some?
    ensures r.Err? ==> r.error == NullReference
    ensures r.Ok? ==> forall k :: 0 <= k < |r.value| ==> r.value[k].Some? && typeOf(r.value[k].value) != t
    decreases |entries|
  {
    if entries == [] then Ok([])
    else if entries[0].None? then Err(NullReference)
    else
      match WithoutType(entries[1..], typeOf, t)
      case Err(e) => Err(e)
      case Ok(rest) =>
        if typeOf(entries[0].value) != t then Ok([entries[0]] + rest) else Ok(rest)
  }

  /** An entry survives the filter exactly when it is in the list and of another type. */
  lemma {:induction false} WithoutTypeMembers<T(!new)>(entries: seq<Option<T>>, typeOf: T -> string, t: string, x: Option<T>)
    requires WithoutType(entries, typeOf, t).Ok?
    ensures x in WithoutType(entries, typeOf, t).value <==> x in entries && typeOf(x.value) != t
    decreases |entries|
  {
    if entries != [] {
      WithoutTypeMembers(entries[1..], typeOf, t, x);
      assert x in entries <==> x == entries[0] || x in entries[1..];
    }
  }

  /** Proof helper for WithoutTypeConcat: one step of the filter. */
  lemma WithoutTypeCons<T(!new)>(e: Option<T>, rest: seq<Option<T>>, typeOf: T -> string, t: string)
    requires e.Some? && WithoutType(rest, typeOf, t).Ok?
    ensures WithoutType([e] + rest, typeOf, t)
      == Ok((if typeOf(e.value) != t then [e] else []) + WithoutType(rest, typeOf, t).value)
  {
    assert ([e] + rest)[0] == e && ([e] + rest)[1..] == rest;
    var v := WithoutType(rest, typeOf, t).value;
    assert [] + v == v;
  }

  /** The filter keeps relative order: filtering a concatenation is concatenating the filtered
      parts. */
  lemma {:induction false} WithoutTypeConcat<T(!new)>(a: seq<Option<T>>, b: seq<Option<T>>, typeOf: T -> string, t: string)
    requires WithoutType(a, typeOf, t).Ok? && WithoutType(b, typeOf, t).Ok?
    ensures WithoutType(a + b, typeOf, t) == Ok(WithoutType(a, typeOf, t).value + WithoutType(b, typeOf, t).value)
    decreases |a|
  {
    var y := WithoutType(b, typeOf, t).value;
    if a == [] {
      assert a + b == b;
      assert WithoutType(a, typeOf, t).value == a;
      assert a + y == y;
    } else {
      var tail := a[1..];
      assert a == [a[0]] + tail;
      assert a + b == [a[0]] + (tail + b);
      WithoutTypeConcat(tail, b, typeOf, t);
      var x := WithoutType(tail, typeOf, t).value;
      WithoutTypeCons(a[0], tail, typeOf, t);
      WithoutTypeCons(a[0], tail + b, typeOf, t);
      var head := if typeOf(a[0].value) != t then [a[0]] else [];
      assert head + (x + y) == (head + x) + y;
    }
  }

  /** Filtering twice is filtering once. */
  lemma {:induction false} WithoutTypeIdempotent<T(!new)>(entries: seq<Option<T>>, typeOf: T -> string, t: string)
    requires WithoutType(entries, typeOf, t).Ok?
    ensures WithoutType(WithoutType(entries, typeOf, t).value, typeOf, t) == WithoutType(entries, typeOf, t)
    decreases |entries|
  {
    if entries != [] {
      WithoutTypeIdempotent(entries[1..], typeOf, t);
      var rest := WithoutType(entries[1..], typeOf, t).value;
      assert ([entries[0]] + rest)[1..] == rest;
    }
  }

  function OverrideType(o: ConfigOverride): string {
    o.typeName
  }

  function EditType(e: ConfigEdit): string {
    e.typeName
  }

  /** A mod's loaded change files (ModLoadedData). */
  class LoadedModData {
    var configOverrides: seq<Option<ConfigOverride>>
    var configEdits: seq<Option<ConfigEdit>>

    constructor (overrides: seq<Option<ConfigOverride>>, edits: seq<Option<ConfigEdit>>)
      ensures configOverrides == overrides && configEdits == edits
    {
      configOverrides := overrides;
      configEdits := edits;
    }
  }

  /** UnloadConfigChangeFiles: drop the unit preset overrides, then the unit preset edit scripts,
      from the mod's loaded data. An exception (a missing mod, a null entry) is caught and ends the
      operation, keeping what was already reassigned. */
  method UnloadConfigChangeFiles(loadedModsLookup: map<string, LoadedModData>, modId: string)
    modifies loadedModsLookup.Values
    ensures forall m :: m in loadedModsLookup.Values && (modId !in loadedModsLookup || m != loadedModsLookup[modId]) ==>
      (m.configOverrides == old(m.configOverrides) && m.configEdits == old(m.configEdits))
    ensures modId in loadedModsLookup ==>
      var m := loadedModsLookup[modId];
      var o := WithoutType(old(m.configOverrides), OverrideType, UnitPresetType);
      var e := WithoutType(old(m.configEdits), EditType, UnitPresetType);
      && m.configOverrides == (if o.Ok? then o.value else old(m.configOverrides))
      && m.configEdits == (if o.Ok? && e.Ok? then e.value else old(m.configEdits))
  {
    if modId !in loadedModsLookup {
      return;
    }
    var loadedData := loadedModsLookup[modId];
    var overrides := WithoutType(loadedData.configOverrides, OverrideType, UnitPresetType);
    if overrides.Err? {
      return;
    }
    loadedData.configOverrides := overrides.value;
    var edits := WithoutType(loadedData.configEdits, EditType, UnitPresetType);
    if edits.Err? {
      return;
    }
    loadedData.configEdits := edits.value;
  }
}
