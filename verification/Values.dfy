/**
 Nested plain values as model dumps produce them, and the rule by which a richer value wins
 (`_prefer_richer_value`, `_nonempty_leaf_count`, `_is_empty`).
 */
module Values {

  datatype Value = Null | Bool(b: bool) | Num(n: int) | Text(s: string) | List(items: Items) | Dict(fields: Fields)

  datatype Items = NoItems | Item(head: Value, tail: Items)

  /** The entries of a dictionary in insertion order. */
  datatype Fields = NoFields | Field(key: string, value: Value, rest: Fields)

  predicate IsEmpty(v: Value) {
    v.Null? || v == Text("") || v == List(NoItems) || v == Dict(NoFields)
  }

  predicate HasKey(f: Fields, key: string) {
    f.Field? && (f.key == key || HasKey(f.rest, key))
  }

  function Get(f: Fields, key: string): Value {
    match f
    case NoFields => Null
    case Field(k, v, rest) => if k == key then v else Get(rest, key)
  }

  function Append(a: Fields, b: Fields): Fields {
    match a
    case NoFields => b
    case Field(k, v, rest) => Field(k, v, Append(rest, b))
  }

  function LeafCount(v: Value): nat {
    match v
    case Dict(fields) => FieldLeaves(fields)
    case List(items) => ItemLeaves(items)
    case _ => if IsEmpty(v) then 0 else 1
  }

  function FieldLeaves(f: Fields): nat {
    match f
    case NoFields => 0
    case Field(_, v, rest) => LeafCount(v) + FieldLeaves(rest)
  }

  function ItemLeaves(i: Items): nat {
    match i
    case NoItems => 0
    case Item(v, tail) => LeafCount(v) + ItemLeaves(tail)
  }

  /** The preferred value unless it is empty and the other is not; dictionaries are merged by key. */
  function PreferRicher(preferred: Value, fallback: Value): Value {
    if preferred.Dict? && fallback.Dict? then
      Dict(Append(PreferFields(preferred.fields, fallback.fields), NewFields(fallback.fields, preferred.fields)))
    else if IsEmpty(preferred) && !IsEmpty(fallback) then fallback
    else preferred
  }

  function PreferFields(preferred: Fields, fallback: Fields): Fields {
    match preferred
    case NoFields => NoFields
    case Field(k, v, rest) => Field(k, PreferRicher(v, Get(fallback, k)), PreferFields(rest, fallback))
  }

  /** The entries only the fallback has; a missing entry on the other side counts as null. */
  function NewFields(fallback: Fields, known: Fields): Fields {
    match fallback
    case NoFields => NoFields
    case Field(k, v, rest) =>
      if HasKey(known, k) then NewFields(rest, known)
      else Field(k, if IsEmpty(v) then Null else v, NewFields(rest, known))
  }

  // ----- Properties

  /** A merged value is empty exactly when both sides are. */
  lemma EmptyOnlyIfBoth(p: Value, f: Value)
    ensures IsEmpty(PreferRicher(p, f)) <==> IsEmpty(p) && IsEmpty(f)
  {
    if p.Dict? && f.Dict? && p.fields.NoFields? && f.fields.Field? {
      assert !HasKey(p.fields, f.fields.key);
    }
  }

  /** The rule on whole values: a value that is there stays, and one that is not is taken from the other
      side. Only two dictionaries are merged. */
  lemma PreferredOrOther(p: Value, f: Value)
    ensures (!IsEmpty(p) || IsEmpty(f)) && !(p.Dict? && f.Dict?) ==> PreferRicher(p, f) == p
    ensures IsEmpty(p) && !IsEmpty(f) && !(p.Dict? && f.Dict?) ==> PreferRicher(p, f) == f
    ensures p.Dict? && f.Dict? ==> PreferRicher(p, f).Dict?
  {
  }

  lemma {:induction false} AppendLeaves(a: Fields, b: Fields)
    ensures FieldLeaves(Append(a, b)) == FieldLeaves(a) + FieldLeaves(b)
  {
    if a.Field? {
      AppendLeaves(a.rest, b);
    }
  }

  /** Merging never loses leaves of the preferred side. */
  lemma {:induction false} PreferredLeavesStay(p: Value, f: Value)
    ensures LeafCount(PreferRicher(p, f)) >= LeafCount(p)
    decreases p, 1
  {
    if p.Dict? && f.Dict? {
      AppendLeaves(PreferFields(p.fields, f.fields), NewFields(f.fields, p.fields));
      PreferredFieldLeavesStay(p.fields, f.fields);
    }
  }

  lemma {:induction false} PreferredFieldLeavesStay(p: Fields, f: Fields)
    ensures FieldLeaves(PreferFields(p, f)) >= FieldLeaves(p)
    decreases p, 0
  {
    if p.Field? {
      PreferredLeavesStay(p.value, Get(f, p.key));
      PreferredFieldLeavesStay(p.rest, f);
    }
  }

  /** The value at the end of a path of keys; null when there is none. */
  function Find(v: Value, path: seq<string>): Value
    decreases |path|
  {
    if path == [] then v else if v.Dict? then Find(Get(v.fields, path[0]), path[1..]) else Null
  }

  lemma {:induction false} GetAppend(a: Fields, b: Fields, key: string)
    ensures Get(Append(a, b), key) == if HasKey(a, key) then Get(a, key) else Get(b, key)
  {
    if a.Field? {
      GetAppend(a.rest, b, key);
    }
  }

  lemma {:induction false} GetPreferred(p: Fields, f: Fields, key: string)
    ensures HasKey(PreferFields(p, f), key) == HasKey(p, key)
    ensures HasKey(p, key) ==> Get(PreferFields(p, f), key) == PreferRicher(Get(p, key), Get(f, key))
  {
    if p.Field? {
      GetPreferred(p.rest, f, key);
    }
  }

  lemma {:induction false} GetNew(f: Fields, p: Fields, key: string)
    ensures Get(NewFields(f, p), key) ==
      if HasKey(p, key) then Null else if IsEmpty(Get(f, key)) then Null else Get(f, key)
  {
    if f.Field? {
      GetNew(f.rest, p, key);
    }
  }

  lemma {:induction false} MissingIsNull(f: Fields, key: string)
    ensures !HasKey(f, key) ==> Get(f, key) == Null
  {
    if f.Field? {
      MissingIsNull(f.rest, key);
    }
  }

  /** Merging works key by key. */
  lemma MergeByKey(p: Value, f: Value, key: string)
    requires p.Dict? && f.Dict?
    ensures PreferRicher(p, f).Dict?
    ensures Get(PreferRicher(p, f).fields, key) == PreferRicher(Get(p.fields, key), Get(f.fields, key))
  {
    GetAppend(PreferFields(p.fields, f.fields), NewFields(f.fields, p.fields), key);
    GetPreferred(p.fields, f.fields, key);
    GetNew(f.fields, p.fields, key);
    MissingIsNull(p.fields, key);
  }

  /** Known content of the preferred side, at any depth, is what the merged value holds there. */
  lemma {:induction false} KnownContentStays(p: Value, f: Value, path: seq<string>)
    ensures !IsEmpty(Find(p, path)) && !Find(p, path).Dict? ==> Find(PreferRicher(p, f), path) == Find(p, path)
    decreases |path|
  {
    if path != [] && p.Dict? {
      if f.Dict? {
        MergeByKey(p, f, path[0]);
        KnownContentStays(Get(p.fields, path[0]), Get(f.fields, path[0]), path[1..]);
      } else if p.fields.NoFields? {
        NothingInNull(path[1..]);
      }
    }
  }

  lemma NothingInNull(path: seq<string>)
    ensures Find(Null, path) == Null
  {
  }

  /** Keys occur once in every dictionary. */
  predicate Plain(v: Value) {
    match v
    case Dict(fields) => PlainFields(fields)
    case _ => true
  }

  predicate PlainFields(f: Fields) {
    f.Field? ==> !HasKey(f.rest, f.key) && Plain(f.value) && PlainFields(f.rest)
  }

  /** Merging a value with itself changes nothing. */
  lemma {:induction false} PreferSelf(v: Value)
    requires Plain(v)
    ensures PreferRicher(v, v) == v
    decreases v, 1
  {
    if v.Dict? {
      PreferOwnFields(v.fields, v.fields);
      NothingNew(v.fields, v.fields);
      AppendNothing(v.fields);
    }
  }

  /** `part` is a stretch of `whole` as far as lookups go. */
  lemma {:induction false} PreferOwnFields(part: Fields, whole: Fields)
    requires PlainFields(part)
    requires forall k :: HasKey(part, k) ==> Get(whole, k) == Get(part, k)
    ensures PreferFields(part, whole) == part
    decreases part, 0
  {
    if part.Field? {
      assert Get(whole, part.key) == part.value;
      PreferSelf(part.value);
      PreferOwnFields(part.rest, whole);
    }
  }

  lemma {:induction false} NothingNew(f: Fields, known: Fields)
    requires forall k :: HasKey(f, k) ==> HasKey(known, k)
    ensures NewFields(f, known) == NoFields
  {
    if f.Field? {
      assert HasKey(f, f.key);
      NothingNew(f.rest, known);
    }
  }

  lemma {:induction false} AppendNothing(f: Fields)
    ensures Append(f, NoFields) == f
  {
    if f.Field? {
      AppendNothing(f.rest);
    }
  }
}
