/** The typed object graph that stands in for Go reflection over the FHIR
    model types: a type universe, values, a catalog of named struct and
    enumeration types, and a read-only navigation by path segments. */
module Graph {
  import opened Wrappers
  import opened Text
  import opened Mapping

  /** The reflect kinds the mapping engine distinguishes. `TEnum` is a Go
      integer type with its own JSON decoder over a list of codes (the FHIR
      code types); `TOther` is any kind the coercion switch does not handle. */
  datatype Type =
    | TString
    | TInt
    | TBool
    | TEnum(name: string)
    | TPtr(elem: Type)
    | TSlice(elem: Type)
    | TStruct(name: string)
    | TOther(kind: string)

  /** A value of the graph. A nil pointer is `VPtr(None)`; a struct maps
      field names to values, and a field it does not hold has its type's
      zero value. Enumeration values are their ordinals. */
  datatype Value =
    | VString(s: string)
    | VInt(i: int)
    | VBool(b: bool)
    | VPtr(target: Option<Value>)
    | VSlice(elems: seq<Value>)
    | VStruct(fields: map<string, Value>)
    | VOther

  /** The declared fields of each struct type and the codes of each
      enumeration type, in declaration order. */
  datatype Catalog = Catalog(structs: map<string, map<string, Type>>, enums: map<string, seq<string>>)

  function FieldsOf(cat: Catalog, name: string): map<string, Type> {
    if name in cat.structs then cat.structs[name] else map[]
  }

  function CodesOf(cat: Catalog, name: string): seq<string> {
    if name in cat.enums then cat.enums[name] else []
  }

  /** `reflect.Kind.String()` of a type. */
  function Kind(t: Type): string {
    match t
    case TString => "string"
    case TInt => "int"
    case TBool => "bool"
    case TEnum(_) => "int"
    case TPtr(_) => "ptr"
    case TSlice(_) => "slice"
    case TStruct(_) => "struct"
    case TOther(k) => k
  }

  /** The zero value of a type: what `reflect.New` and `reflect.MakeSlice` fill in. */
  function Zero(t: Type): (v: Value) {
    match t
    case TString => VString("")
    case TInt => VInt(0)
    case TBool => VBool(false)
    case TEnum(_) => VInt(0)
    case TPtr(_) => VPtr(None)
    case TSlice(_) => VSlice([])
    case TStruct(_) => VStruct(map[])
    case TOther(_) => VOther
  }

  predicate IsInt64(i: int) {
    Int64Min <= i <= Int64Max
  }

  /** `v` is a value of type `t`: the shape agrees, an int64 fits in 64 bits
      and a struct holds only declared fields, each of its declared type. */
  predicate HasType(cat: Catalog, v: Value, t: Type)
    decreases v
  {
    match v
    case VString(_) => t == TString
    case VInt(i) => (t == TInt && IsInt64(i)) || t.TEnum?
    case VBool(_) => t == TBool
    case VPtr(p) => t.TPtr? && (p.Some? ==> HasType(cat, p.value, t.elem))
    case VSlice(xs) => t.TSlice? && forall k :: 0 <= k < |xs| ==> HasType(cat, xs[k], t.elem)
    case VStruct(m) =>
      t.TStruct? &&
      forall f :: f in m ==> f in FieldsOf(cat, t.name) && HasType(cat, m[f], FieldsOf(cat, t.name)[f])
    case VOther => t.TOther?
  }

  lemma ZeroHasType(cat: Catalog, t: Type)
    ensures HasType(cat, Zero(t), t)
  {
  }

  /** The Go field name a path segment names: its first letter upper-cased. */
  function Capitalize(name: string): (f: string)
    ensures |f| == |name|
    ensures |name| > 0 ==> f[0] == UpperChar(name[0]) && f[1..] == name[1..]
  {
    if |name| == 0 then "" else [UpperChar(name[0])] + name[1..]
  }

  /** The fields a value holds when it is used as a struct. */
  function FieldsOfValue(v: Value): map<string, Value> {
    if v.VStruct? then v.fields else map[]
  }

  /** The elements a value holds when it is used as a slice. */
  function ElemsOf(v: Value): seq<Value> {
    if v.VSlice? then v.elems else []
  }

  /** `FieldByName(f)` on a struct holding `m`, the field being of type `ft`. */
  function FieldValue(m: map<string, Value>, f: string, ft: Type): Value {
    if f in m then m[f] else Zero(ft)
  }

  predicate IsNil(v: Value) {
    !(v.VPtr? && v.target.Some?)
  }

  /** The value a pointer chain of type `t` ends in, or `v` itself when a
      pointer on the way is nil. */
  function Peel(t: Type, v: Value): Value
    decreases t
  {
    if t.TPtr? && !IsNil(v) then Peel(t.elem, v.target.value) else v
  }

  /** The type a pointer chain of type `t` ends in. */
  function PeelType(t: Type): Type
    decreases t
  {
    if t.TPtr? then PeelType(t.elem) else t
  }

  /** Reading along a path without changing anything: the type and value of
      the field or element the last segment names, or `None` when the path
      meets a nil pointer, a missing element or an unknown field. This is the
      reference the setter is checked against. */
  function Read(cat: Catalog, t: Type, v: Value, segs: seq<Segment>): Option<(Type, Value)>
    decreases |segs|, 1, t
  {
    if |segs| == 0 then None
    else match t
      case TPtr(e) => if IsNil(v) then None else Read(cat, e, v.target.value, segs)
      case TStruct(n) => ReadField(cat, n, FieldsOfValue(v), segs)
      case _ => None
  }

  function ReadField(cat: Catalog, n: string, m: map<string, Value>, segs: seq<Segment>): Option<(Type, Value)>
    requires |segs| > 0
    decreases |segs|, 0
  {
    var seg := segs[0];
    var f := Capitalize(seg.field);
    var decl := FieldsOf(cat, n);
    if |seg.field| == 0 || f !in decl then None
    else
      var ft := decl[f];
      var cur := FieldValue(m, f, ft);
      if seg.index.Some? then
        var i := seg.index.value;
        var xs := ElemsOf(cur);
        if !ft.TSlice? || i < 0 || i >= |xs| then None
        else if |segs| == 1 then Some((ft.elem, xs[i]))
        else Read(cat, ft.elem, xs[i], segs[1..])
      else if |segs| == 1 then Some((ft, cur))
      else Read(cat, ft, cur, segs[1..])
  }
}
