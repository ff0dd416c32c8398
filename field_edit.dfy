/** ProcessFieldEdit as a function: the early guard, the operator, the walk, the slot, then
    either a typed updater (updaterMap) or the default-instance tail. */
module FieldEdit {
  import opened Wrappers
  import opened Strings
  import opened Numbers
  import opened EditOperations
  import opened ObjectGraph
  import opened PathWalker

  /** The declared types updaterMap has an updater for. */
  predicate HasUpdater(t: Type) {
    t in {StringType, BoolType, IntType, FloatType, StringSetType} || t.VectorType?
  }

  /** UpdateStringField: the value verbatim, or null for DefaultValue. */
  function StringValue(op: EditOperation, value: string): Val {
    if op != DefaultValue then Str(value) else Null
  }

  /** UpdateBoolField: true exactly when the value is "true" in any letter case. */
  function BoolValue(op: EditOperation, value: string): Val {
    Bool(op != DefaultValue && EqualsIgnoreCase(value, "true"))
  }

  /** UpdateIntField's parse step. */
  function IntValue(op: EditOperation, value: string): (r: Result<Val, Reason>)
    ensures r.Ok? ==> r.value.Int? && Int32Min <= r.value.i <= Int32Max
    ensures r.Err? <==> op != DefaultValue && ParseInt32(value).None?
    ensures op != DefaultValue && ParseInt32(value).Some? ==> r == Ok(Int(ParseInt32(value).value))
  {
    if op == DefaultValue then Ok(Int(0))
    else
      match ParseInt32(value)
      case None => Err(Unparsable)
      case Some(n) => Ok(Int(n))
  }

  /** UpdateFloatField's parse step. */
  function FloatValue(sch: Schema, op: EditOperation, value: string): (r: Result<Val, Reason>)
    ensures r.Err? <==> op != DefaultValue && sch.parseFloat(value).None?
    ensures op != DefaultValue && sch.parseFloat(value).Some? ==> r == Ok(Flt(sch.parseFloat(value).value))
  {
    if op == DefaultValue then Ok(Flt(FloatZero))
    else
      match sch.parseFloat(value)
      case None => Err(Unparsable)
      case Some(f) => Ok(Flt(f))
  }

  /** Every component parsed, in order; None as soon as one does not parse. */
  function ParseComponents(parseFloat: string -> Option<Float>, parts: seq<string>): (r: Option<seq<Float>>)
    ensures r.Some? <==> forall k :: 0 <= k < |parts| ==> parseFloat(parts[k]).Some?
    ensures r.Some? ==>
      |r.value| == |parts| && forall k :: 0 <= k < |parts| ==> parseFloat(parts[k]) == Some(r.value[k])
  {
    if parts == [] then Some([])
    else
      match parseFloat(parts[0])
      case None => None
      case Some(f) =>
        match ParseComponents(parseFloat, parts[1..])
        case None => None
        case Some(fs) => Some([f] + fs)
  }

  /** The parentheses test of the vector parser is StartsWith("(") and EndsWith(")"). */
  lemma ParenthesesTest(raw: string)
    ensures (|raw| >= 2 && raw[0] == '(' && raw[|raw| - 1] == ')')
        <==> (StartsWith(raw, "(") && EndsWith(raw, ")"))
  {
    if StartsWith(raw, "(") && EndsWith(raw, ")") {
      assert raw[..1] == "(" && raw[|raw| - 1..] == ")";
      assert raw[0] == raw[..1][0];
      assert raw[|raw| - 1] == raw[|raw| - 1..][0];
    }
    if |raw| >= 2 && raw[0] == '(' && raw[|raw| - 1] == ')' {
      assert raw[..1] == "(";
      assert raw[|raw| - 1..] == ")";
    }
  }

  /** ParseVectorValue: `(c1,...,cN)` with exactly N comma-separated components, each of which
      parses. The parentheses test is StartsWith("(") and EndsWith(")"); see ParenthesesTest. */
  function ParseVector(sch: Schema, kind: VectorKind, raw: string): (r: Result<Val, Reason>)
    ensures !(StartsWith(raw, "(") && EndsWith(raw, ")")) ==> r == Err(VectorParentheses)
    ensures StartsWith(raw, "(") && EndsWith(raw, ")") ==>
      && |raw| >= 2
      && var parts := Split(raw[1..|raw| - 1], ',');
      && (|parts| != Components(kind) ==> r == Err(VectorArity))
      && (|parts| == Components(kind) ==>
            && (r.Ok? <==> forall k :: 0 <= k < |parts| ==> sch.parseFloat(parts[k]).Some?)
            && (r.Err? ==> r == Err(VectorComponent))
            && (r.Ok? ==>
                  && r.value.Vec? && r.value.kind == kind && |r.value.cs| == |parts|
                  && forall k :: 0 <= k < |parts| ==> sch.parseFloat(parts[k]) == Some(r.value.cs[k])))
    ensures r.Ok? ==> r.value.Vec? && r.value.kind == kind && |r.value.cs| == Components(kind)
  {
    ParenthesesTest(raw);
    if |raw| < 2 || raw[0] != '(' || raw[|raw| - 1] != ')' then Err(VectorParentheses)
    else
      var parts := Split(raw[1..|raw| - 1], ',');
      if |parts| != Components(kind) then Err(VectorArity)
      else
        match ParseComponents(sch.parseFloat, parts)
        case None => Err(VectorComponent)
        case Some(cs) => Ok(Vec(kind, cs))
  }

  /** UpdateVectorField's parse step: the zero vector for DefaultValue. */
  function VectorValue(sch: Schema, kind: VectorKind, op: EditOperation, value: string): Result<Val, Reason> {
    if op == DefaultValue then Ok(ZeroOf(VectorType(kind))) else ParseVector(sch, kind, value)
  }

  /** The value a scalar or vector updater hands to the setter, or why it hands none. */
  function UpdateValue(sch: Schema, t: Type, op: EditOperation, value: string): (r: Result<Val, Reason>)
    requires HasUpdater(t) && t != StringSetType
    ensures op == DefaultValue ==> r == Ok(ZeroOf(t))
    ensures t == StringType || t == BoolType ==> r.Ok?
    ensures t == BoolType && op != DefaultValue ==> (r == Ok(Bool(true)) <==> EqualsIgnoreCase(value, "true"))
    ensures r.Ok? && t.VectorType? ==> r.value.Vec? && r.value.kind == t.kind && |r.value.cs| == Components(t.kind)
    ensures op != DefaultValue && t == StringType ==> r == Ok(Str(value))
    ensures op != DefaultValue && t == IntType ==>
      (r.Err? <==> ParseInt32(value).None?) && (r.Ok? ==> r == Ok(Int(ParseInt32(value).value)))
    ensures op != DefaultValue && t == FloatType ==>
      (r.Err? <==> sch.parseFloat(value).None?) && (r.Ok? ==> r == Ok(Flt(sch.parseFloat(value).value)))
    ensures op != DefaultValue && t.VectorType? ==> r == ParseVector(sch, t.kind, value)
  {
    match t
    case StringType => Ok(StringValue(op, value))
    case BoolType => Ok(BoolValue(op, value))
    case IntType => IntValue(op, value)
    case FloatType => FloatValue(sch, op, value)
    case VectorType(k) => VectorValue(sch, k, op, value)
  }

  /** A scalar or vector updater: the setter is called once, and only after parsing succeeded. */
  function UpdateScalarField(sch: Schema, h: Heap, slot: Slot, t: Type, op: EditOperation, value: string)
    : (r: (Outcome, Heap))
    requires HasUpdater(t) && t != StringSetType
    ensures r.0.Rejected? <==> UpdateValue(sch, t, op, value).Err?
    ensures r.0 != Edited ==> r.1 == h
    ensures r.0 == Edited ==>
      && WriteSlot(h, slot, UpdateValue(sch, t, op, value).value) == Ok(r.1)
      && r.1.next == h.next && r.1.objs == h.objs[SlotRef(slot) := r.1.objs[SlotRef(slot)]]
    ensures UpdateValue(sch, t, op, value).Ok? ==>
      var written := WriteSlot(h, slot, UpdateValue(sch, t, op, value).value);
      && (written.Ok? ==> r == (Edited, written.value))
      && (written.Err? ==> r == (Threw(written.error), h))
  {
    match UpdateValue(sch, t, op, value)
    case Err(reason) => (Rejected(reason), h)
    case Ok(v) =>
      match WriteSlot(h, slot, v)
      case Err(ex) => (Threw(ex), h)
      case Ok(h1) => (Edited, h1)
  }

  /** UpdateHashSet: only Insert and Remove; the set object the target refers to is changed in
      place, and the setter is not used. */
  function UpdateHashSet(h: Heap, target: Val, op: EditOperation, value: string): (r: (Outcome, Heap))
    ensures op != Insert && op != Remove ==> r == (Rejected(SetOperationUnsupported), h)
    ensures r.0 != Edited ==> r.1 == h
    ensures r.0 == Edited ==>
      && target.Ptr? && target.r in h.objs && h.objs[target.r].StringSet?
      && (op == Insert <==> value !in h.objs[target.r].members)
      && r.1.next == h.next && r.1.objs.Keys == h.objs.Keys
      && r.1.objs == h.objs[target.r := r.1.objs[target.r]]
      && r.1.objs[target.r] == StringSet(
           if op == Insert then h.objs[target.r].members + {value} else h.objs[target.r].members - {value})
  {
    if op != Insert && op != Remove then (Rejected(SetOperationUnsupported), h)
    else if !(target.Ptr? && target.r in h.objs && h.objs[target.r].StringSet?) then (Threw(NullReference), h)
    else
      var members := h.objs[target.r].members;
      if op == Insert then
        if value in members then (Rejected(SetValuePresent), h)
        else (Edited, h.(objs := h.objs[target.r := StringSet(members + {value})]))
      else
        if value !in members then (Rejected(SetValueAbsent), h)
        else (Edited, h.(objs := h.objs[target.r := StringSet(members - {value})]))
  }

  /** The type a default instance is made of: the tag's type for `!tag`, the declared type
      otherwise; None for an unregistered tag. */
  function InstanceType(sch: Schema, declared: Type, value: string): Option<Type> {
    if StartsWith(value, "!") then
      if value[1..] in sch.tags then Some(sch.tags[value[1..]]) else None
    else Some(declared)
  }

  /** The tail of ProcessFieldEdit for a declared type without an updater: only DefaultValue, only
      on a field, and the new instance goes into that field. */
  function DefaultInstanceEdit(sch: Schema, h: Heap, st: EditState, declared: Type, op: EditOperation, value: string)
    : (r: (Outcome, Heap))
    ensures op != DefaultValue ==> r == (Rejected(NoParser), h)
    ensures r.0.Rejected? ==> r.1 == h
    ensures r.0 == Edited ==>
      && op == DefaultValue && st.fieldInfo.Some? && st.parent.Ptr?
      && InstanceType(sch, declared, value).Some?
      && Assignable(sch, InstanceType(sch, declared, value).value, st.fieldInfo.value.fieldType)
      && st.parent.r in r.1.objs && r.1.objs[st.parent.r].Record?
    ensures op == DefaultValue && st.fieldInfo.None? ==> r == (Rejected(NotAFieldSlot), h)
    ensures op == DefaultValue && st.fieldInfo.Some? && InstanceType(sch, declared, value).None? ==>
      r == (Rejected(UnknownTag), h)
    ensures r.0 == Edited ==>
      var made := CreateInstance(sch, h, InstanceType(sch, declared, value).value);
      && made.Ok?
      && WriteSlot(made.value.1, FieldSlot(st.parent.r, st.fieldInfo.value), made.value.0) == Ok(r.1)
      && st.fieldInfo.value.name in r.1.objs[st.parent.r].fields
      && r.1.objs[st.parent.r].fields[st.fieldInfo.value.name] == made.value.0
  {
    if op != DefaultValue then (Rejected(NoParser), h)
    else if st.fieldInfo.None? then (Rejected(NotAFieldSlot), h)
    else
      match InstanceType(sch, declared, value)
      case None => (Rejected(UnknownTag), h)
      case Some(it) =>
        match CreateInstance(sch, h, it)
        case Err(ex) => (Threw(ex), h)
        case Ok((v, h1)) =>
          if !st.parent.Ptr? || !Assignable(sch, it, st.fieldInfo.value.fieldType) then (Threw(Argument), h1)
          else
            match WriteSlot(h1, FieldSlot(st.parent.r, st.fieldInfo.value), v)
            case Err(ex) => (Threw(ex), h1)
            case Ok(h2) => (Edited, h2)
  }

  /** Dispatch on the declared type of the walked slot (updaterMap, then the default-instance
      tail). */
  function ApplyToSlot(sch: Schema, h: Heap, st: EditState, slot: Slot, op: EditOperation, value: string)
    : (r: (Outcome, Heap))
    ensures r.0 != Ignored
    ensures r.0.Rejected? ==> r.1 == h
  {
    match st.targetType
    case None => (Threw(ArgumentNull), h)
    case Some(t) =>
      if t == StringSetType then UpdateHashSet(h, st.target, op, value)
      else if HasUpdater(t) then UpdateScalarField(sch, h, slot, t, op, value)
      else DefaultInstanceEdit(sch, h, st, t, op, value)
  }

  /** ProcessFieldEdit: one directive (path, raw value) against the root. */
  function ProcessFieldEdit(sch: Schema, h: Heap, root: Val, path: string, raw: string): (r: (Outcome, Heap))
    ensures r.0 == Ignored <==> |path| == 0 || |raw| == 0
    ensures r.0 == Ignored ==> r.1 == h
    ensures ParseOperation(raw).0 != Insert && r.0.Rejected? ==> r.1 == h
  {
    if |path| == 0 || |raw| == 0 then (Ignored, h)
    else
      var (op, value) := ParseOperation(raw);
      match WalkFieldPath(sch, h, root, path, op, value)
      case (Stop(o), h1) => (o, h1)
      case (Proceed(st), h1) =>
        match ValidateEditState(h1, st)
        case Err(o) => (o, h1)
        case Ok(slot) => ApplyToSlot(sch, h1, st, slot, op, value)
  }
}
