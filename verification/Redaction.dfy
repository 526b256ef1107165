/**
 The allowlist-first projection of diagnostics: a recursive walk under a node and key budget that
 keeps allowlisted fields, counts what it drops, and refuses everything it cannot place.
 */
module Redaction {
  import opened Basics
  import opened Ordering

  // ----- Payloads and allowlists

  datatype Prim = BoolPrim(b: bool) | IntPrim(n: int) | TextPrim(s: string) | OtherPrim

  datatype Key = Name(name: string) | NotAString

  datatype Data = Leaf(prim: Prim) | Object(entries: Entries) | Array(elements: Elements)
  datatype Entries = NoEntries | Entry(key: Key, value: Data, rest: Entries)
  datatype Elements = NoElements | Element(head: Data, tail: Elements)

  datatype Contract = Boolean | NonNegativeInteger | PositiveInteger | Enum(values: set<string>)
                    | Sha256Reference | RandomReference | UnknownKind

  datatype Allow = Scalar(contract: Contract) | Fields(fields: AllowFields) | Each(child: Allow) | Junk
  datatype AllowFields = NoFields | AllowField(key: Key, child: Allow, rest: AllowFields)

  const MAX_DEPTH := 3
  const MAX_KEYS := 64
  const MAX_ARRAY_ITEMS := 32
  const MAX_REPORT_ITEMS := 32
  const MAX_PATH_LENGTH := 128
  const MAX_TOTAL_NODES := 1024
  const MAX_TOTAL_KEYS := 512
  const MAX_SAFE_INTEGER := 0x1f_ffff_ffff_ffff

  predicate IsHex(s: string) {
    forall i :: 0 <= i < |s| ==> '0' <= s[i] <= '9' || 'a' <= s[i] <= 'f'
  }

  predicate Satisfies(p: Prim, c: Contract) {
    match c
    case Boolean => p.BoolPrim?
    case NonNegativeInteger => p.IntPrim? && 0 <= p.n <= MAX_SAFE_INTEGER
    case PositiveInteger => p.IntPrim? && 1 <= p.n <= MAX_SAFE_INTEGER
    case Enum(values) => p.TextPrim? && p.s in values
    case Sha256Reference => p.TextPrim? &&
      ((|p.s| == 64 && IsHex(p.s)) || (|p.s| == 71 && p.s[..7] == "sha256:" && IsHex(p.s[7..])))
    case RandomReference => p.TextPrim? && |p.s| == 32 && IsHex(p.s) && exists i :: 0 <= i < 32 && p.s[i] != '0'
    case UnknownKind => false
  }

  /** What each contract admits: booleans; the numbers from zero, or from one, up to the largest safe
      integer; the texts of the list; a digest of 64 hexadecimal digits, which may carry its name; and a
      reference of 32 hexadecimal digits that are not all zero. */
  lemma AdmitsExactly(p: Prim, values: set<string>)
    ensures Satisfies(p, Boolean) <==> p.BoolPrim?
    ensures Satisfies(p, PositiveInteger) <==> Satisfies(p, NonNegativeInteger) && p != IntPrim(0)
    ensures Satisfies(p, NonNegativeInteger) <==> p.IntPrim? && p.n >= 0 && p.n < 0x20_0000_0000_0000
    ensures Satisfies(p, Enum(values)) <==> exists s :: s in values && p == TextPrim(s)
    ensures Satisfies(p, Sha256Reference) <==>
      exists s :: HexDigits(s, 64) && (p == TextPrim(s) || p == TextPrim("sha256:" + s))
    ensures Satisfies(p, RandomReference) <==> exists s :: HexDigits(s, 32) && p == TextPrim(s) && !AllZero(s)
    ensures !Satisfies(p, UnknownKind)
  {
    if p.TextPrim? {
      HexMeans(p.s);
      ShaMeans(p.s);
      RandomMeans(p.s);
    }
    hide HexDigits, IsHex, AllZero;
  }

  lemma RandomMeans(t: string)
    ensures Satisfies(TextPrim(t), RandomReference) <==> HexDigits(t, 32) && !AllZero(t)
  {
    HexMeans(t);
    hide IsHex;
    if HexDigits(t, 32) && !AllZero(t) {
      var c :| c in t && c != '0';
      var i :| 0 <= i < |t| && t[i] == c;
    }
    if i :| 0 <= i < |t| && t[i] != '0' {
      assert t[i] in t;
    }
  }

  lemma ShaMeans(t: string)
    ensures Satisfies(TextPrim(t), Sha256Reference) <==>
      exists s :: HexDigits(s, 64) && (t == s || t == "sha256:" + s)
  {
    HexMeans(t);
    assert HexDigits(t, 64) <==> |t| == 64 && IsHex(t);
    if |t| >= 7 {
      HexMeans(t[7..]);
      if t[..7] == "sha256:" {
        assert t == "sha256:" + t[7..];
      }
    }
    hide IsHex;
    if HexDigits(t, 64) {
      assert exists s :: s == t && HexDigits(s, 64);
    }
    if |t| == 71 && t[..7] == "sha256:" && IsHex(t[7..]) {
      assert HexDigits(t[7..], 64);
    }
    if s :| HexDigits(s, 64) && t == "sha256:" + s {
      assert t[..7] == "sha256:" && t[7..] == s;
    }
  }

  lemma HexMeans(s: string)
    ensures IsHex(s) <==> forall c :: c in s ==> c in HEX
  {
    forall c ensures c in HEX <==> '0' <= c <= '9' || 'a' <= c <= 'f' {
      if '0' <= c <= '9' {
        assert HEX[c as int - '0' as int] == c;
      } else if 'a' <= c <= 'f' {
        assert HEX[10 + c as int - 'a' as int] == c;
      }
    }
    if forall c :: c in s ==> c in HEX {
      forall i | 0 <= i < |s| ensures '0' <= s[i] <= '9' || 'a' <= s[i] <= 'f' {
        assert s[i] in s;
      }
    }
  }

  const HEX := "0123456789abcdef"

  ghost predicate HexDigits(s: string, n: nat) {
    |s| == n && forall c :: c in s ==> c in HEX
  }

  ghost predicate AllZero(s: string) {
    forall c :: c in s ==> c == '0'
  }

  function Size(e: Entries): nat {
    match e case NoEntries => 0 case Entry(_, _, rest) => 1 + Size(rest)
  }

  function Length(e: Elements): nat {
    match e case NoElements => 0 case Element(_, tail) => 1 + Length(tail)
  }

  function AllowSize(f: AllowFields): nat {
    match f case NoFields => 0 case AllowField(_, _, rest) => 1 + AllowSize(rest)
  }

  /** The allowlist entry for a key. */
  function Child(f: AllowFields, name: string): Option<Allow> {
    match f
    case NoFields => None
    case AllowField(k, child, rest) => if k == Name(name) then Some(child) else Child(rest, name)
  }

  // ----- Allowlist validation

  datatype Budget = Budget(nodes: nat, keys: nat)

  datatype Reason = BudgetExceeded | TooDeep | ScalarMismatch | ShapeMismatch | ObjectTooLarge
                  | ArrayTooLarge | InvalidKey | InvalidAllowlist

  datatype Result<+T> = Ok(value: T) | Fail(reason: Reason)

  /** The rule a key falls under, if it is sensitive; the patterns themselves are not modelled. */
  type Sensitive = string -> Option<string>

  predicate AllowedName(name: string) {
    && 1 <= |name| <= 64 && 'a' <= name[0] <= 'z'
    && forall i :: 1 <= i < |name| ==> 'a' <= name[i] <= 'z' || '0' <= name[i] <= '9' || name[i] == '_'
  }

  const LOWER := "abcdefghijklmnopqrstuvwxyz"
  const DIGITS := "0123456789"

  /** A lower-case letter, then at most 63 lower-case letters, digits and underscores. */
  lemma AllowedNameExactly(name: string)
    ensures AllowedName(name) <==>
      1 <= |name| < 65 && name[0] in LOWER && forall c :: c in name[1..] ==> c in LOWER || c in DIGITS || c == '_'
  {
    forall c ensures c in LOWER <==> 'a' <= c <= 'z' {
      if 'a' <= c <= 'z' {
        assert LOWER[c as int - 'a' as int] == c;
      }
    }
    forall c ensures c in DIGITS <==> '0' <= c <= '9' {
      if '0' <= c <= '9' {
        assert DIGITS[c as int - '0' as int] == c;
      }
    }
    if |name| >= 1 {
      forall i | 1 <= i < |name| ensures name[i] in name[1..] {
        assert name[i] == name[1..][i - 1];
      }
      forall c | c in name[1..] ensures exists i :: 1 <= i < |name| && name[i] == c {
        var i :| 0 <= i < |name[1..]| && name[1..][i] == c;
        assert name[i + 1] == c;
      }
    }
  }

  function AddNode(b: Budget): Result<Budget> {
    if b.nodes + 1 > MAX_TOTAL_NODES then Fail(BudgetExceeded) else Ok(b.(nodes := b.nodes + 1))
  }

  function AddKeys(b: Budget, count: nat): Result<Budget> {
    if b.keys + count > MAX_TOTAL_KEYS then Fail(BudgetExceeded) else Ok(b.(keys := b.keys + count))
  }

  function ValidateAllowlist(sensitive: Sensitive, a: Allow, depth: nat, b: Budget): Result<Budget>
    decreases a, 1
  {
    var b1 := AddNode(b);
    if b1.Fail? then b1
    else if depth > MAX_DEPTH then Fail(TooDeep)
    else match a
      case Scalar(c) => if c.Enum? && c.values == {} then Fail(InvalidAllowlist) else b1
      case Fields(fields) =>
        if AllowSize(fields) > MAX_KEYS then Fail(InvalidAllowlist)
        else
          var b2 := AddKeys(b1.value, AllowSize(fields));
          if b2.Fail? then b2 else ValidateFields(sensitive, fields, depth, b2.value)
      case Each(child) => ValidateAllowlist(sensitive, child, depth + 1, b1.value)
      case Junk => Fail(InvalidAllowlist)
  }

  function ValidateFields(sensitive: Sensitive, f: AllowFields, depth: nat, b: Budget): Result<Budget>
    decreases f, 0
  {
    match f
    case NoFields => Ok(b)
    case AllowField(k, child, rest) =>
      if k.NotAString? || !AllowedName(k.name) || sensitive(k.name).Some? then Fail(InvalidAllowlist)
      else
        var b1 := ValidateAllowlist(sensitive, child, depth + 1, b);
        if b1.Fail? then b1 else ValidateFields(sensitive, rest, depth, b1.value)
  }

  // ----- The projection

  /** The walk's counters: the budget and, as a counter of (rule, path) pairs, what was dropped. */
  datatype Walk = Walk(budget: Budget, reports: multiset<(string, string)>)

  function Take(s: string, n: nat): string {
    if |s| <= n then s else s[..n]
  }

  function RedactedPath(path: string): string { Take(path + ".<redacted-field>", MAX_PATH_LENGTH) }
  function SafePath(path: string): string { Take(path + ".<field>", MAX_PATH_LENGTH) }
  function ItemPath(path: string): string { path + ".<item>" }

  function RuleFor(sensitive: Sensitive, name: string): string {
    if sensitive(name).Some? then sensitive(name).value else "field_not_allowlisted"
  }

  function Report(w: Walk, rule: string, path: string): Walk {
    w.(reports := w.reports + multiset{(rule, path)})
  }

  function Project(sensitive: Sensitive, v: Data, a: Allow, path: string, depth: nat, w: Walk): Result<(Data, Walk)>
    decreases v, a, 2
  {
    var b := AddNode(w.budget);
    if b.Fail? then Fail(b.reason)
    else if depth > MAX_DEPTH then Fail(TooDeep)
    else
      var w1 := w.(budget := b.value);
      match a
      case Scalar(c) =>
        if v.Leaf? && Satisfies(v.prim, c) then Ok((v, w1)) else Fail(ScalarMismatch)
      case Fields(fields) =>
        if !v.Object? then Fail(ShapeMismatch)
        else if Size(v.entries) > MAX_KEYS then Fail(ObjectTooLarge)
        else
          var b2 := AddKeys(w1.budget, Size(v.entries));
          if b2.Fail? then Fail(b2.reason)
          else
            var r := ProjectEntries(sensitive, v.entries, fields, path, depth, w1.(budget := b2.value));
            if r.Fail? then Fail(r.reason) else Ok((Object(r.value.0), r.value.1))
      case Each(child) =>
        if !v.Array? then Fail(ShapeMismatch)
        else if Length(v.elements) > MAX_ARRAY_ITEMS then Fail(ArrayTooLarge)
        else
          var r := ProjectElements(sensitive, v.elements, child, path, depth, w1);
          if r.Fail? then Fail(r.reason) else Ok((Array(r.value.0), r.value.1))
      case Junk => Fail(InvalidAllowlist)
  }

  function ProjectEntries(sensitive: Sensitive, e: Entries, fields: AllowFields, path: string, depth: nat,
                          w: Walk): Result<(Entries, Walk)>
    decreases e, fields, 1
  {
    match e
    case NoEntries => Ok((NoEntries, w))
    case Entry(key, value, rest) =>
      if key.NotAString? then Fail(InvalidKey)
      else if sensitive(key.name).Some? || Child(fields, key.name).None? then
        ProjectEntries(sensitive, rest, fields, path, depth,
          Report(w, RuleFor(sensitive, key.name), RedactedPath(path)))
      else
        var r := Project(sensitive, value, Child(fields, key.name).value, SafePath(path), depth + 1, w);
        if r.Fail? then Fail(r.reason)
        else
          var s := ProjectEntries(sensitive, rest, fields, path, depth, r.value.1);
          if s.Fail? then Fail(s.reason) else Ok((Entry(key, r.value.0, s.value.0), s.value.1))
  }

  function ProjectElements(sensitive: Sensitive, e: Elements, child: Allow, path: string, depth: nat,
                           w: Walk): Result<(Elements, Walk)>
    decreases e, child, 0
  {
    match e
    case NoElements => Ok((NoElements, w))
    case Element(head, tail) =>
      var r := Project(sensitive, head, child, ItemPath(path), depth + 1, w);
      if r.Fail? then Fail(r.reason)
      else
        var s := ProjectElements(sensitive, tail, child, path, depth, r.value.1);
        if s.Fail? then Fail(s.reason) else Ok((Element(r.value.0, s.value.0), s.value.1))
  }

  // ----- Conformance

  /** Only allowlisted, non-sensitive keys and contract-satisfying leaves, within the shape limits. */
  ghost predicate Conforms(sensitive: Sensitive, v: Data, a: Allow, depth: nat)
    decreases v, 1
  {
    depth <= MAX_DEPTH &&
    match a
    case Scalar(c) => v.Leaf? && Satisfies(v.prim, c)
    case Fields(fields) => v.Object? && Size(v.entries) <= MAX_KEYS
      && EntriesConform(sensitive, v.entries, fields, depth)
    case Each(child) => v.Array? && Length(v.elements) <= MAX_ARRAY_ITEMS
      && ElementsConform(sensitive, v.elements, child, depth)
    case Junk => false
  }

  ghost predicate EntriesConform(sensitive: Sensitive, e: Entries, fields: AllowFields, depth: nat)
    decreases e, 0
  {
    e.Entry? ==>
      && e.key.Name? && sensitive(e.key.name).None? && Child(fields, e.key.name).Some?
      && Conforms(sensitive, e.value, Child(fields, e.key.name).value, depth + 1)
      && EntriesConform(sensitive, e.rest, fields, depth)
  }

  ghost predicate ElementsConform(sensitive: Sensitive, e: Elements, child: Allow, depth: nat)
    decreases e, 0
  {
    e.Element? ==> Conforms(sensitive, e.head, child, depth + 1) && ElementsConform(sensitive, e.tail, child, depth)
  }

  function Nodes(v: Data): nat {
    match v
    case Leaf(_) => 1
    case Object(e) => 1 + EntryNodes(e)
    case Array(e) => 1 + ElementNodes(e)
  }

  function EntryNodes(e: Entries): nat {
    match e case NoEntries => 0 case Entry(_, v, rest) => Nodes(v) + EntryNodes(rest)
  }

  function ElementNodes(e: Elements): nat {
    match e case NoElements => 0 case Element(v, tail) => Nodes(v) + ElementNodes(tail)
  }

  /** The keys of a payload at every depth. */
  function Keys(v: Data): nat {
    match v
    case Leaf(_) => 0
    case Object(e) => Size(e) + EntryKeys(e)
    case Array(e) => ElementKeys(e)
  }

  function EntryKeys(e: Entries): nat {
    match e case NoEntries => 0 case Entry(_, v, rest) => Keys(v) + EntryKeys(rest)
  }

  function ElementKeys(e: Elements): nat {
    match e case NoElements => 0 case Element(v, tail) => Keys(v) + ElementKeys(tail)
  }

  /** The output conforms; the nodes spent are those of the output; every key counted was either
      kept or reported. */
  lemma {:induction false} ProjectSound(sensitive: Sensitive, v: Data, a: Allow, path: string, depth: nat, w: Walk)
    requires Project(sensitive, v, a, path, depth, w).Ok?
    ensures var (out, w') := Project(sensitive, v, a, path, depth, w).value;
      && Conforms(sensitive, out, a, depth)
      && w'.budget.nodes == w.budget.nodes + Nodes(out)
      && w'.budget.keys + |w.reports| == w.budget.keys + Keys(out) + |w'.reports|
    decreases v, a, 2
  {
    var b := AddNode(w.budget);
    var w1 := w.(budget := b.value);
    match a
    case Scalar(c) =>
    case Fields(fields) =>
      var b2 := AddKeys(w1.budget, Size(v.entries));
      EntriesSound(sensitive, v.entries, fields, path, depth, w1.(budget := b2.value));
    case Each(child) =>
      ElementsSound(sensitive, v.elements, child, path, depth, w1);
    case Junk =>
  }

  lemma {:induction false} EntriesSound(sensitive: Sensitive, e: Entries, fields: AllowFields, path: string, depth: nat,
                                        w: Walk)
    requires ProjectEntries(sensitive, e, fields, path, depth, w).Ok?
    ensures var (out, w') := ProjectEntries(sensitive, e, fields, path, depth, w).value;
      && EntriesConform(sensitive, out, fields, depth) && Size(out) <= Size(e)
      && w'.budget.nodes == w.budget.nodes + EntryNodes(out)
      && w'.budget.keys + Size(e) + |w.reports| == w.budget.keys + Size(out) + EntryKeys(out) + |w'.reports|
    decreases e, fields, 1
  {
    if e.Entry? {
      if sensitive(e.key.name).Some? || Child(fields, e.key.name).None? {
        EntriesSound(sensitive, e.rest, fields, path, depth,
          Report(w, RuleFor(sensitive, e.key.name), RedactedPath(path)));
      } else {
        ProjectSound(sensitive, e.value, Child(fields, e.key.name).value, SafePath(path), depth + 1, w);
        EntriesSound(sensitive, e.rest, fields, path, depth,
                     Project(sensitive, e.value, Child(fields, e.key.name).value, SafePath(path),
                             depth + 1, w).value.1);
      }
    }
  }

  lemma {:induction false} ElementsSound(sensitive: Sensitive, e: Elements, child: Allow, path: string, depth: nat,
                                         w: Walk)
    requires ProjectElements(sensitive, e, child, path, depth, w).Ok?
    ensures var (out, w') := ProjectElements(sensitive, e, child, path, depth, w).value;
      && ElementsConform(sensitive, out, child, depth) && Length(out) == Length(e)
      && w'.budget.nodes == w.budget.nodes + ElementNodes(out)
      && w'.budget.keys + |w.reports| == w.budget.keys + ElementKeys(out) + |w'.reports|
    decreases e, child, 0
  {
    if e.Element? {
      ProjectSound(sensitive, e.head, child, ItemPath(path), depth + 1, w);
      ElementsSound(sensitive, e.tail, child, path, depth,
        Project(sensitive, e.head, child, ItemPath(path), depth + 1, w).value.1);
    }
  }

  // ----- What the projection means, without the walk

  predicate Kept(sensitive: Sensitive, k: Key, fields: AllowFields) {
    k.Name? && sensitive(k.name).None? && Child(fields, k.name).Some?
  }

  /** The payload without the fields that are sensitive or not allowlisted, at any depth. */
  function Prune(sensitive: Sensitive, v: Data, a: Allow): Data
    decreases v, 1
  {
    if v.Object? && a.Fields? then Object(PruneEntries(sensitive, v.entries, a.fields))
    else if v.Array? && a.Each? then Array(PruneElements(sensitive, v.elements, a.child))
    else v
  }

  function PruneEntries(sensitive: Sensitive, e: Entries, fields: AllowFields): Entries
    decreases e, 0
  {
    match e
    case NoEntries => NoEntries
    case Entry(k, v, rest) =>
      var others := PruneEntries(sensitive, rest, fields);
      if Kept(sensitive, k, fields) then Entry(k, Prune(sensitive, v, Child(fields, k.name).value), others) else others
  }

  function PruneElements(sensitive: Sensitive, e: Elements, child: Allow): Elements
    decreases e, 0
  {
    match e
    case NoElements => NoElements
    case Element(v, tail) => Element(Prune(sensitive, v, child), PruneElements(sensitive, tail, child))
  }

  /** One (rule, path) pair per dropped field. */
  function Dropped(sensitive: Sensitive, v: Data, a: Allow, path: string): multiset<(string, string)>
    decreases v, 1
  {
    if v.Object? && a.Fields? then DroppedEntries(sensitive, v.entries, a.fields, path)
    else if v.Array? && a.Each? then DroppedElements(sensitive, v.elements, a.child, path)
    else multiset{}
  }

  function DroppedEntries(sensitive: Sensitive, e: Entries, fields: AllowFields, path: string)
    : multiset<(string, string)>
    decreases e, 0
  {
    match e
    case NoEntries => multiset{}
    case Entry(k, v, rest) =>
      (if Kept(sensitive, k, fields) then Dropped(sensitive, v, Child(fields, k.name).value, SafePath(path))
       else if k.NotAString? then multiset{}
       else if sensitive(k.name).Some? then multiset{(sensitive(k.name).value, RedactedPath(path))}
       else multiset{("field_not_allowlisted", RedactedPath(path))})
      + DroppedEntries(sensitive, rest, fields, path)
  }

  function DroppedElements(sensitive: Sensitive, e: Elements, child: Allow, path: string): multiset<(string, string)>
    decreases e, 0
  {
    match e
    case NoElements => multiset{}
    case Element(v, tail) =>
      Dropped(sensitive, v, child, ItemPath(path)) + DroppedElements(sensitive, tail, child, path)
  }

  /** Everything the allowlist lets through has the shape and depth the allowlist gives it. */
  ghost predicate Placeable(sensitive: Sensitive, v: Data, a: Allow, depth: nat)
    decreases v, 1
  {
    depth <= MAX_DEPTH &&
    match a
    case Scalar(c) => v.Leaf? && Satisfies(v.prim, c)
    case Fields(fields) => v.Object? && Size(v.entries) <= MAX_KEYS
      && EntriesPlaceable(sensitive, v.entries, fields, depth)
    case Each(child) => v.Array? && Length(v.elements) <= MAX_ARRAY_ITEMS
      && ElementsPlaceable(sensitive, v.elements, child, depth)
    case Junk => false
  }

  ghost predicate EntriesPlaceable(sensitive: Sensitive, e: Entries, fields: AllowFields, depth: nat)
    decreases e, 0
  {
    e.Entry? ==>
      && e.key.Name?
      && (Kept(sensitive, e.key, fields) ==> Placeable(sensitive, e.value, Child(fields, e.key.name).value, depth + 1))
      && EntriesPlaceable(sensitive, e.rest, fields, depth)
  }

  ghost predicate ElementsPlaceable(sensitive: Sensitive, e: Elements, child: Allow, depth: nat)
    decreases e, 0
  {
    e.Element? ==> Placeable(sensitive, e.head, child, depth + 1) && ElementsPlaceable(sensitive, e.tail, child, depth)
  }

  /** The keys of every object the projection enters, kept or not. */
  function KeysSeen(sensitive: Sensitive, v: Data, a: Allow): nat
    decreases v, 1
  {
    if v.Object? && a.Fields? then Size(v.entries) + EntryKeysSeen(sensitive, v.entries, a.fields)
    else if v.Array? && a.Each? then ElementKeysSeen(sensitive, v.elements, a.child)
    else 0
  }

  function EntryKeysSeen(sensitive: Sensitive, e: Entries, fields: AllowFields): nat
    decreases e, 0
  {
    match e
    case NoEntries => 0
    case Entry(k, v, rest) =>
      (if Kept(sensitive, k, fields) then KeysSeen(sensitive, v, Child(fields, k.name).value) else 0)
      + EntryKeysSeen(sensitive, rest, fields)
  }

  function ElementKeysSeen(sensitive: Sensitive, e: Elements, child: Allow): nat
    decreases e, 0
  {
    match e
    case NoElements => 0
    case Element(v, tail) => KeysSeen(sensitive, v, child) + ElementKeysSeen(sensitive, tail, child)
  }

  function Spent(w: Walk, nodes: nat, keys: nat): Walk {
    w.(budget := Budget(w.budget.nodes + nodes, w.budget.keys + keys))
  }

  predicate Affordable(w: Walk, nodes: nat, keys: nat) {
    w.budget.nodes + nodes <= MAX_TOTAL_NODES && w.budget.keys + keys <= MAX_TOTAL_KEYS
  }

  /** A walk that has also kept `nodes` nodes, seen `keys` keys and dropped the fields in `dropped`. */
  function After(w: Walk, nodes: nat, keys: nat, dropped: multiset<(string, string)>): Walk {
    Spent(w, nodes, keys).(reports := w.reports + dropped)
  }

  /** A result that is a success exactly when `fits` holds and the budget suffices, and then is `out`. */
  ghost predicate Exactly<T>(r: Result<(T, Walk)>, fits: bool, out: T, w: Walk, nodes: nat, keys: nat,
                             dropped: multiset<(string, string)>) {
    && (r.Ok? <==> fits && Affordable(w, nodes, keys))
    && (r.Ok? ==> r.value == (out, After(w, nodes, keys, dropped)))
  }

  lemma Compose<S, T>(r: Result<(S, Walk)>, fits: bool, out: S, w: Walk, n: nat, k: nat, d: multiset<(string, string)>,
                      r': Result<(T, Walk)>, fits': bool, out': T, n': nat, k': nat, d': multiset<(string, string)>)
    requires Exactly(r, fits, out, w, n, k, d)
    requires r.Ok? ==> Exactly(r', fits', out', r.value.1, n', k', d')
    ensures r.Ok? && r'.Ok? <==> fits && fits' && Affordable(w, n + n', k + k')
    ensures r.Ok? && r'.Ok? ==> r.value.0 == out && r'.value == (out', After(w, n + n', k + k', d + d'))
  {
    assert (w.reports + d) + d' == w.reports + (d + d');
  }

  /** The projection succeeds exactly when the payload can be placed and the totals fit the budget,
      however the budget is spent on the way; and then it prunes and reports exactly what it drops. */
  lemma {:induction false} ProjectsExactly(sensitive: Sensitive, v: Data, a: Allow, path: string, depth: nat, w: Walk)
    requires Affordable(w, 0, 0)
    ensures var out := Prune(sensitive, v, a);
      Exactly(Project(sensitive, v, a, path, depth, w), Placeable(sensitive, v, a, depth),
              out, w, Nodes(out), KeysSeen(sensitive, v, a), Dropped(sensitive, v, a, path))
    decreases v, a, 2
  {
    hide ProjectEntries, PruneEntries, EntriesPlaceable, EntryNodes, EntryKeysSeen, DroppedEntries;
    hide ProjectElements, PruneElements, ElementsPlaceable, ElementNodes, ElementKeysSeen, DroppedElements;
    if a.Fields? && v.Object? {
      ObjectProjectsExactly(sensitive, v.entries, a.fields, path, depth, w);
    } else if a.Each? && v.Array? {
      ArrayProjectsExactly(sensitive, v.elements, a.child, path, depth, w);
    } else {
      assert w.reports + multiset{} == w.reports;
    }
  }

  lemma {:induction false} ObjectProjectsExactly(sensitive: Sensitive, e: Entries, fields: AllowFields, path: string,
                                                 depth: nat, w: Walk)
    requires Affordable(w, 0, 0)
    ensures var out := PruneEntries(sensitive, e, fields);
      Exactly(Project(sensitive, Object(e), Fields(fields), path, depth, w),
        Placeable(sensitive, Object(e), Fields(fields), depth),
              Object(out), w, 1 + EntryNodes(out), Size(e) + EntryKeysSeen(sensitive, e, fields),
              DroppedEntries(sensitive, e, fields, path))
    decreases e, fields, 2
  {
    hide ProjectEntries, PruneEntries, EntriesPlaceable, EntryNodes, EntryKeysSeen, DroppedEntries;
    if Affordable(w, 1, Size(e)) {
      EntriesProjectExactly(sensitive, e, fields, path, depth, Spent(w, 1, Size(e)));
    }
  }

  lemma {:induction false} ArrayProjectsExactly(sensitive: Sensitive, e: Elements, child: Allow, path: string,
                                                depth: nat, w: Walk)
    requires Affordable(w, 0, 0)
    ensures var out := PruneElements(sensitive, e, child);
      Exactly(Project(sensitive, Array(e), Each(child), path, depth, w),
        Placeable(sensitive, Array(e), Each(child), depth),
              Array(out), w, 1 + ElementNodes(out), ElementKeysSeen(sensitive, e, child),
              DroppedElements(sensitive, e, child, path))
    decreases e, child, 1
  {
    hide ProjectElements, PruneElements, ElementsPlaceable, ElementNodes, ElementKeysSeen, DroppedElements;
    if Affordable(w, 1, 0) {
      ElementsProjectExactly(sensitive, e, child, path, depth, Spent(w, 1, 0));
    }
  }

  lemma {:induction false} EntriesProjectExactly(sensitive: Sensitive, e: Entries, fields: AllowFields, path: string,
                                                 depth: nat, w: Walk)
    requires Affordable(w, 0, 0)
    ensures var out := PruneEntries(sensitive, e, fields);
      Exactly(ProjectEntries(sensitive, e, fields, path, depth, w), EntriesPlaceable(sensitive, e, fields, depth),
              out, w, EntryNodes(out), EntryKeysSeen(sensitive, e, fields), DroppedEntries(sensitive, e, fields, path))
    decreases e, fields, 1
  {
    if e.NoEntries? {
      assert w.reports + multiset{} == w.reports;
    } else if e.key.Name? {
      if Kept(sensitive, e.key, fields) {
        KeptEntryProjectsExactly(sensitive, e.key, e.value, e.rest, fields, path, depth, w);
      } else {
        DroppedEntryProjectsExactly(sensitive, e.key, e.value, e.rest, fields, path, depth, w);
      }
    }
  }

  lemma {:induction false} KeptEntryProjectsExactly(sensitive: Sensitive, key: Key, value: Data, rest: Entries,
      fields: AllowFields, path: string, depth: nat, w: Walk)
    requires Affordable(w, 0, 0) && Kept(sensitive, key, fields)
    ensures var e := Entry(key, value, rest);
      var out := PruneEntries(sensitive, e, fields);
      Exactly(ProjectEntries(sensitive, e, fields, path, depth, w), EntriesPlaceable(sensitive, e, fields, depth),
              out, w, EntryNodes(out), EntryKeysSeen(sensitive, e, fields), DroppedEntries(sensitive, e, fields, path))
    decreases Entry(key, value, rest), fields, 0
  {
    hide Project, Prune, Placeable, Nodes, KeysSeen, Dropped, RuleFor, RedactedPath, SafePath;
    var e := Entry(key, value, rest);
    var child := Child(fields, key.name).value;
    var out, left := Prune(sensitive, value, child), PruneEntries(sensitive, rest, fields);
    var r := Project(sensitive, value, child, SafePath(path), depth + 1, w);
    ProjectsExactly(sensitive, value, child, SafePath(path), depth + 1, w);
    if r.Ok? {
      EntriesProjectExactly(sensitive, rest, fields, path, depth, r.value.1);
      Compose(r, Placeable(sensitive, value, child, depth + 1), out, w, Nodes(out), KeysSeen(sensitive, value, child),
              Dropped(sensitive, value, child, SafePath(path)),
              ProjectEntries(sensitive, rest, fields, path, depth, r.value.1),
              EntriesPlaceable(sensitive, rest, fields, depth),
              left, EntryNodes(left), EntryKeysSeen(sensitive, rest, fields),
              DroppedEntries(sensitive, rest, fields, path));
    }
  }

  lemma {:induction false} DroppedEntryProjectsExactly(sensitive: Sensitive, key: Key, value: Data, rest: Entries,
      fields: AllowFields, path: string, depth: nat, w: Walk)
    requires Affordable(w, 0, 0) && key.Name? && !Kept(sensitive, key, fields)
    ensures var e := Entry(key, value, rest);
      var out := PruneEntries(sensitive, e, fields);
      Exactly(ProjectEntries(sensitive, e, fields, path, depth, w), EntriesPlaceable(sensitive, e, fields, depth),
              out, w, EntryNodes(out), EntryKeysSeen(sensitive, e, fields), DroppedEntries(sensitive, e, fields, path))
    decreases Entry(key, value, rest), fields, 0
  {
    hide Project, Prune, Placeable, Nodes, KeysSeen, Dropped, RedactedPath, SafePath;
    var pair := (RuleFor(sensitive, key.name), RedactedPath(path));
    EntriesProjectExactly(sensitive, rest, fields, path, depth, Report(w, pair.0, pair.1));
    var others := DroppedEntries(sensitive, rest, fields, path);
    assert (w.reports + multiset{pair}) + others == w.reports + (multiset{pair} + others);
  }

  lemma {:induction false} ElementsProjectExactly(sensitive: Sensitive, e: Elements, child: Allow, path: string,
                                                  depth: nat, w: Walk)
    requires Affordable(w, 0, 0)
    ensures var out := PruneElements(sensitive, e, child);
      Exactly(ProjectElements(sensitive, e, child, path, depth, w), ElementsPlaceable(sensitive, e, child, depth),
              out, w, ElementNodes(out), ElementKeysSeen(sensitive, e, child),
              DroppedElements(sensitive, e, child, path))
    decreases e, child, 0
  {
    hide Project, Prune, Placeable, Nodes, KeysSeen, Dropped, ItemPath;
    if e.NoElements? {
      assert w.reports + multiset{} == w.reports;
    } else {
      var out, left := Prune(sensitive, e.head, child), PruneElements(sensitive, e.tail, child);
      var r := Project(sensitive, e.head, child, ItemPath(path), depth + 1, w);
      ProjectsExactly(sensitive, e.head, child, ItemPath(path), depth + 1, w);
      if r.Ok? {
        ElementsProjectExactly(sensitive, e.tail, child, path, depth, r.value.1);
        Compose(r, Placeable(sensitive, e.head, child, depth + 1), out, w, Nodes(out),
          KeysSeen(sensitive, e.head, child),
                Dropped(sensitive, e.head, child, ItemPath(path)),
                ProjectElements(sensitive, e.tail, child, path, depth, r.value.1),
                ElementsPlaceable(sensitive, e.tail, child, depth),
                left, ElementNodes(left), ElementKeysSeen(sensitive, e.tail, child),
                DroppedElements(sensitive, e.tail, child, path));
      }
    }
  }

  // ----- Idempotence

  /** A conforming value within budget projects to itself, and nothing is reported. */
  lemma {:induction false} ConformingIsFixed(sensitive: Sensitive, v: Data, a: Allow, path: string, depth: nat, w: Walk)
    requires Conforms(sensitive, v, a, depth) && Affordable(w, Nodes(v), Keys(v))
    ensures Project(sensitive, v, a, path, depth, w) == Ok((v, Spent(w, Nodes(v), Keys(v))))
    decreases v, a, 2
  {
    var w1 := Spent(w, 1, 0);
    match a
    case Scalar(c) =>
    case Fields(fields) => EntriesAreFixed(sensitive, v.entries, fields, path, depth, Spent(w, 1, Size(v.entries)));
    case Each(child) => ElementsAreFixed(sensitive, v.elements, child, path, depth, w1);
  }

  lemma {:induction false} EntriesAreFixed(sensitive: Sensitive, e: Entries, fields: AllowFields, path: string,
                                           depth: nat, w: Walk)
    requires EntriesConform(sensitive, e, fields, depth) && Affordable(w, EntryNodes(e), EntryKeys(e))
    ensures ProjectEntries(sensitive, e, fields, path, depth, w) == Ok((e, Spent(w, EntryNodes(e), EntryKeys(e))))
    decreases e, fields, 1
  {
    if e.Entry? {
      ConformingIsFixed(sensitive, e.value, Child(fields, e.key.name).value, SafePath(path), depth + 1, w);
      EntriesAreFixed(sensitive, e.rest, fields, path, depth, Spent(w, Nodes(e.value), Keys(e.value)));
    }
  }

  lemma {:induction false} ElementsAreFixed(sensitive: Sensitive, e: Elements, child: Allow, path: string, depth: nat,
                                            w: Walk)
    requires ElementsConform(sensitive, e, child, depth) && Affordable(w, ElementNodes(e), ElementKeys(e))
    ensures ProjectElements(sensitive, e, child, path, depth, w) == Ok((e, Spent(w, ElementNodes(e), ElementKeys(e))))
    decreases e, child, 0
  {
    if e.Element? {
      ConformingIsFixed(sensitive, e.head, child, ItemPath(path), depth + 1, w);
      ElementsAreFixed(sensitive, e.tail, child, path, depth, Spent(w, Nodes(e.head), Keys(e.head)));
    }
  }

  // ----- Report paths

  /** "root", then one step per level: a field or an item. */
  function Steps(fields: seq<bool>): string {
    if fields == [] then "root"
    else Steps(fields[..|fields| - 1]) + if fields[|fields| - 1] then ".<field>" else ".<item>"
  }

  /** A path of field and item steps that ends in a redacted field. */
  ghost predicate RedactionPath(p: string) {
    exists fields :: |fields| <= MAX_DEPTH && p == Steps(fields) + ".<redacted-field>"
  }

  lemma {:induction false} StepsAreShort(fields: seq<bool>)
    ensures |Steps(fields)| <= 4 + 8 * |fields|
  {
    if fields != [] {
      StepsAreShort(fields[..|fields| - 1]);
    }
  }

  ghost predicate ReportsArePaths(w: Walk) {
    forall r :: r in w.reports ==> RedactionPath(r.1)
  }

  lemma OneStepDeeper(fields: seq<bool>, field: bool)
    requires |fields| <= MAX_DEPTH
    ensures Steps(fields + [field]) == if field then SafePath(Steps(fields)) else ItemPath(Steps(fields))
    ensures RedactedPath(Steps(fields)) == Steps(fields) + ".<redacted-field>"
    ensures RedactionPath(RedactedPath(Steps(fields))) && |RedactedPath(Steps(fields))| < MAX_PATH_LENGTH
  {
    StepsAreShort(fields);
    assert (fields + [field])[..|fields|] == fields;
  }

  /** Every reported path is a redaction path: the truncation to 128 characters never takes effect. */
  lemma {:induction false} ProjectReportsPaths(sensitive: Sensitive, v: Data, a: Allow, fields: seq<bool>, w: Walk)
    requires Project(sensitive, v, a, Steps(fields), |fields|, w).Ok? && ReportsArePaths(w)
    ensures ReportsArePaths(Project(sensitive, v, a, Steps(fields), |fields|, w).value.1)
    decreases v, a, 2
  {
    var w1 := w.(budget := AddNode(w.budget).value);
    match a
    case Scalar(c) =>
    case Fields(allowed) =>
      EntriesReportPaths(sensitive, v.entries, allowed, fields,
        w1.(budget := AddKeys(w1.budget, Size(v.entries)).value));
    case Each(child) => ElementsReportPaths(sensitive, v.elements, child, fields, w1);
    case Junk =>
  }

  lemma {:induction false} EntriesReportPaths(sensitive: Sensitive, e: Entries, allowed: AllowFields, fields: seq<bool>,
                                              w: Walk)
    requires ProjectEntries(sensitive, e, allowed, Steps(fields), |fields|, w).Ok? && ReportsArePaths(w)
      && |fields| <= MAX_DEPTH
    ensures ReportsArePaths(ProjectEntries(sensitive, e, allowed, Steps(fields), |fields|, w).value.1)
    decreases e, allowed, 1
  {
    hide RedactionPath;
    if e.Entry? {
      OneStepDeeper(fields, true);
      if sensitive(e.key.name).Some? || Child(allowed, e.key.name).None? {
        EntriesReportPaths(sensitive, e.rest, allowed, fields,
                           Report(w, RuleFor(sensitive, e.key.name), RedactedPath(Steps(fields))));
      } else {
        ProjectReportsPaths(sensitive, e.value, Child(allowed, e.key.name).value, fields + [true], w);
        EntriesReportPaths(sensitive, e.rest, allowed, fields,
          Project(sensitive, e.value, Child(allowed, e.key.name).value, SafePath(Steps(fields)),
                  |fields| + 1, w).value.1);
      }
    }
  }

  lemma {:induction false} ElementsReportPaths(sensitive: Sensitive, e: Elements, child: Allow, fields: seq<bool>,
                                               w: Walk)
    requires ProjectElements(sensitive, e, child, Steps(fields), |fields|, w).Ok? && ReportsArePaths(w)
      && |fields| <= MAX_DEPTH
    ensures ReportsArePaths(ProjectElements(sensitive, e, child, Steps(fields), |fields|, w).value.1)
    decreases e, child, 0
  {
    hide RedactionPath;
    if e.Element? {
      OneStepDeeper(fields, false);
      ProjectReportsPaths(sensitive, e.head, child, fields + [false], w);
      ElementsReportPaths(sensitive, e.tail, child, fields,
        Project(sensitive, e.head, child, ItemPath(Steps(fields)), |fields| + 1, w).value.1);
    }
  }

  // ----- A validated allowlist

  /** Every key is a plain, non-sensitive name; nothing is nested too deep or malformed. */
  ghost predicate WellFormedAllow(sensitive: Sensitive, a: Allow, depth: nat)
    decreases a, 1
  {
    depth <= MAX_DEPTH &&
    match a
    case Scalar(c) => c.Enum? ==> c.values != {}
    case Fields(fields) => AllowSize(fields) <= MAX_KEYS && WellFormedFields(sensitive, fields, depth)
    case Each(child) => WellFormedAllow(sensitive, child, depth + 1)
    case Junk => false
  }

  ghost predicate WellFormedFields(sensitive: Sensitive, f: AllowFields, depth: nat)
    decreases f, 0
  {
    f.AllowField? ==>
      && f.key.Name? && AllowedName(f.key.name) && sensitive(f.key.name).None?
      && WellFormedAllow(sensitive, f.child, depth + 1) && WellFormedFields(sensitive, f.rest, depth)
  }

  /** The nodes and the keys of an allowlist, as the validation counts them. */
  ghost function AllowNodes(a: Allow): nat {
    match a
    case Fields(fields) => 1 + FieldNodes(fields)
    case Each(child) => 1 + AllowNodes(child)
    case _ => 1
  }

  ghost function FieldNodes(f: AllowFields): nat {
    match f case NoFields => 0 case AllowField(_, child, rest) => AllowNodes(child) + FieldNodes(rest)
  }

  ghost function AllowKeys(a: Allow): nat {
    match a
    case Fields(fields) => AllowSize(fields) + FieldKeys(fields)
    case Each(child) => AllowKeys(child)
    case _ => 0
  }

  ghost function FieldKeys(f: AllowFields): nat {
    match f case NoFields => 0 case AllowField(_, child, rest) => AllowKeys(child) + FieldKeys(rest)
  }

  ghost predicate Within(b: Budget) {
    b.nodes <= MAX_TOTAL_NODES && b.keys <= MAX_TOTAL_KEYS
  }

  /** The validation succeeds exactly for a well-formed allowlist that the budget left can pay for,
      and then uses up its nodes and its keys. */
  lemma {:induction false} ValidatesExactly(sensitive: Sensitive, a: Allow, depth: nat, b: Budget)
    requires Within(b)
    ensures var r, after := ValidateAllowlist(sensitive, a, depth, b),
                            Budget(b.nodes + AllowNodes(a), b.keys + AllowKeys(a));
      (r.Ok? <==> WellFormedAllow(sensitive, a, depth) && Within(after)) && (r.Ok? ==> r.value == after)
    decreases a, 1
  {
    hide WellFormedFields, ValidateFields, FieldNodes, FieldKeys, AllowSize;
    if AddNode(b).Ok? {
      var b1 := AddNode(b).value;
      match a
      case Fields(fields) =>
        if AddKeys(b1, AllowSize(fields)).Ok? {
          FieldsValidateExactly(sensitive, fields, depth, AddKeys(b1, AllowSize(fields)).value);
        }
      case Each(child) => ValidatesExactly(sensitive, child, depth + 1, b1);
      case _ =>
    }
  }

  lemma {:induction false} FieldsValidateExactly(sensitive: Sensitive, f: AllowFields, depth: nat, b: Budget)
    requires Within(b)
    ensures var r, after := ValidateFields(sensitive, f, depth, b),
                            Budget(b.nodes + FieldNodes(f), b.keys + FieldKeys(f));
      (r.Ok? <==> WellFormedFields(sensitive, f, depth) && Within(after)) && (r.Ok? ==> r.value == after)
    decreases f, 0
  {
    hide WellFormedAllow, ValidateAllowlist, AllowNodes, AllowKeys, AllowedName;
    if f.AllowField? {
      ValidatesExactly(sensitive, f.child, depth + 1, b);
      var b1 := ValidateAllowlist(sensitive, f.child, depth + 1, b);
      if b1.Ok? {
        FieldsValidateExactly(sensitive, f.rest, depth, b1.value);
      }
    }
  }

  lemma {:induction false} ChildIsWellFormed(sensitive: Sensitive, f: AllowFields, depth: nat, name: string)
    requires WellFormedFields(sensitive, f, depth) && Child(f, name).Some?
    ensures WellFormedAllow(sensitive, Child(f, name).value, depth + 1) && sensitive(name).None?
  {
    if f.AllowField? && f.key != Name(name) {
      ChildIsWellFormed(sensitive, f.rest, depth, name);
    }
  }

  /** Under a validated allowlist a payload is only ever refused for what it is itself: neither the
      allowlist nor the depth of the walk is to blame. */
  lemma {:induction false} RefusedForItsOwnSake(sensitive: Sensitive, v: Data, a: Allow, path: string, depth: nat,
                                                w: Walk)
    requires WellFormedAllow(sensitive, a, depth)
    ensures Project(sensitive, v, a, path, depth, w) != Fail(InvalidAllowlist)
    ensures Project(sensitive, v, a, path, depth, w) != Fail(TooDeep)
    decreases v, a, 2
  {
    if AddNode(w.budget).Ok? {
      var w1 := w.(budget := AddNode(w.budget).value);
      match a
      case Scalar(_) =>
      case Fields(fields) =>
        if v.Object? && AddKeys(w1.budget, Size(v.entries)).Ok? {
          EntriesRefusedForTheirOwnSake(sensitive, v.entries, fields, path, depth,
            w1.(budget := AddKeys(w1.budget, Size(v.entries)).value));
        }
      case Each(child) =>
        if v.Array? {
          ElementsRefusedForTheirOwnSake(sensitive, v.elements, child, path, depth, w1);
        }
    }
  }

  lemma {:induction false} EntriesRefusedForTheirOwnSake(sensitive: Sensitive, e: Entries, f: AllowFields, path: string,
      depth: nat, w: Walk)
    requires WellFormedFields(sensitive, f, depth)
    ensures ProjectEntries(sensitive, e, f, path, depth, w) != Fail(InvalidAllowlist)
    ensures ProjectEntries(sensitive, e, f, path, depth, w) != Fail(TooDeep)
    decreases e, f, 1
  {
    if e.Entry? && e.key.Name? {
      if sensitive(e.key.name).Some? || Child(f, e.key.name).None? {
        EntriesRefusedForTheirOwnSake(sensitive, e.rest, f, path, depth,
          Report(w, RuleFor(sensitive, e.key.name), RedactedPath(path)));
      } else {
        ChildIsWellFormed(sensitive, f, depth, e.key.name);
        var r := Project(sensitive, e.value, Child(f, e.key.name).value, SafePath(path), depth + 1, w);
        RefusedForItsOwnSake(sensitive, e.value, Child(f, e.key.name).value, SafePath(path), depth + 1, w);
        if r.Ok? {
          EntriesRefusedForTheirOwnSake(sensitive, e.rest, f, path, depth, r.value.1);
        }
      }
    }
  }

  lemma {:induction false} ElementsRefusedForTheirOwnSake(sensitive: Sensitive, e: Elements, child: Allow, path: string,
      depth: nat, w: Walk)
    requires WellFormedAllow(sensitive, child, depth + 1)
    ensures ProjectElements(sensitive, e, child, path, depth, w) != Fail(InvalidAllowlist)
    ensures ProjectElements(sensitive, e, child, path, depth, w) != Fail(TooDeep)
    decreases e, child, 0
  {
    if e.Element? {
      RefusedForItsOwnSake(sensitive, e.head, child, ItemPath(path), depth + 1, w);
      var r := Project(sensitive, e.head, child, ItemPath(path), depth + 1, w);
      if r.Ok? {
        ElementsRefusedForTheirOwnSake(sensitive, e.tail, child, path, depth, r.value.1);
      }
    }
  }

  // ----- The public projection and its report

  datatype ReportItem = ReportItem(rule: string, path: string, count: nat)

  datatype Projection = Projection(value: Data, redactedCount: nat, report: seq<ReportItem>)

  const EMPTY_WALK := Walk(Budget(0, 0), multiset{})

  /** The counter's items in sorted order, at most 32 of them. */
  function Listing(reports: multiset<(string, string)>): seq<ReportItem> {
    PairsAreOrdered();
    FirstItems(SortedBy((set k | k in reports), PairBefore), reports)
  }

  function FirstItems(keys: seq<(string, string)>, reports: multiset<(string, string)>): (r: seq<ReportItem>)
    ensures |r| == if |keys| <= MAX_REPORT_ITEMS then |keys| else MAX_REPORT_ITEMS
    ensures forall i :: 0 <= i < |r| ==> Pair(r[i]) == keys[i] && r[i].count == reports[keys[i]]
  {
    var n := if |keys| <= MAX_REPORT_ITEMS then |keys| else MAX_REPORT_ITEMS;
    seq(n, i requires 0 <= i < n => ReportItem(keys[i].0, keys[i].1, reports[keys[i]]))
  }

  /** The listing is exact: in order, without repetition, with true counts, and complete unless full. */
  lemma ListingIsExact(reports: multiset<(string, string)>)
    ensures var r := Listing(reports);
      && |r| <= MAX_REPORT_ITEMS
      && (forall i :: 0 <= i < |r| ==> Pair(r[i]) in reports && r[i].count == reports[Pair(r[i])])
      && (forall i, j :: 0 <= i < j < |r| ==> PairBefore(Pair(r[i]), Pair(r[j])))
      && (|r| < MAX_REPORT_ITEMS ==> forall k :: k in reports ==> exists i :: 0 <= i < |r| && Pair(r[i]) == k)
  {
    PairsAreOrdered();
    FirstItemsAreExact(SortedBy((set k | k in reports), PairBefore), reports);
  }

  lemma FirstItemsAreExact(keys: seq<(string, string)>, reports: multiset<(string, string)>)
    requires forall k :: k in keys <==> k in reports
    ensures var r := FirstItems(keys, reports);
      && (forall i :: 0 <= i < |r| ==> Pair(r[i]) in reports && r[i].count == reports[Pair(r[i])])
      && (|r| < MAX_REPORT_ITEMS ==> forall k :: k in reports ==> exists i :: 0 <= i < |r| && Pair(r[i]) == k)
  {
    var r := FirstItems(keys, reports);
    forall i | 0 <= i < |r| ensures Pair(r[i]) in reports && r[i].count == reports[Pair(r[i])] {
      assert keys[i] in keys;
    }
    if |r| < MAX_REPORT_ITEMS {
      forall k | k in reports ensures exists i :: 0 <= i < |r| && Pair(r[i]) == k {
        assert k in keys;
        var i :| 0 <= i < |keys| && keys[i] == k;
        assert Pair(r[i]) == k;
      }
    }
  }

  function Pair(item: ReportItem): (string, string) { (item.rule, item.path) }

  function ProjectDiagnostics(sensitive: Sensitive, payload: Data, allowlist: Allow): Result<Projection> {
    if !allowlist.Fields? then Fail(InvalidAllowlist)
    else
      var valid := ValidateAllowlist(sensitive, allowlist, 0, Budget(0, 0));
      if valid.Fail? then Fail(valid.reason)
      else
        var r := Project(sensitive, payload, allowlist, "root", 0, EMPTY_WALK);
        if r.Fail? then Fail(r.reason)
        else Ok(Projection(r.value.0, |r.value.1.reports|, Listing(r.value.1.reports)))
  }

  function Counts(report: seq<ReportItem>): nat {
    if report == [] then 0 else Counts(report[..|report| - 1]) + report[|report| - 1].count
  }

  /** Distinct items of a counter add up to no more than its total. */
  lemma {:induction false} CountsAtMostTotal(report: seq<ReportItem>, reports: multiset<(string, string)>)
    requires forall i :: 0 <= i < |report| ==> report[i].count == reports[Pair(report[i])]
    requires forall i, j :: 0 <= i < j < |report| ==> Pair(report[i]) != Pair(report[j])
    ensures Counts(report) <= |reports|
  {
    if report != [] {
      var front, last := report[..|report| - 1], report[|report| - 1];
      var others := reports[Pair(last) := 0];
      CountsAtMostTotal(front, others);
    }
  }

  /** What the stored redaction state demands of a report, besides known rule names. */
  ghost predicate ReportAdmissible(p: Projection) {
    && |p.report| <= MAX_REPORT_ITEMS && Counts(p.report) <= p.redactedCount <= MAX_SAFE_INTEGER
    && (forall i :: 0 <= i < |p.report| ==>
          && 1 <= p.report[i].count <= MAX_SAFE_INTEGER && RedactionPath(p.report[i].path)
          && 1 <= |p.report[i].path| <= MAX_PATH_LENGTH)
    && (forall i, j :: 0 <= i < j < |p.report| ==> Pair(p.report[i]) != Pair(p.report[j]))
  }

  lemma RedactionPathsAreShort(path: string)
    requires RedactionPath(path)
    ensures 1 <= |path| <= MAX_PATH_LENGTH
  {
    var fields :| |fields| <= MAX_DEPTH && path == Steps(fields) + ".<redacted-field>";
    StepsAreShort(fields);
  }

  /** The projection conforms and conserves keys within the key budget. */
  lemma ProjectionSound(sensitive: Sensitive, payload: Data, allowlist: Allow)
    requires ProjectDiagnostics(sensitive, payload, allowlist).Ok?
    ensures var p := ProjectDiagnostics(sensitive, payload, allowlist).value;
      && Conforms(sensitive, p.value, allowlist, 0)
      && Keys(p.value) + p.redactedCount ==
          Project(sensitive, payload, allowlist, "root", 0, EMPTY_WALK).value.1.budget.keys
      && Keys(p.value) + p.redactedCount <= MAX_TOTAL_KEYS && Nodes(p.value) <= MAX_TOTAL_NODES
  {
    ProjectSound(sensitive, payload, allowlist, "root", 0, EMPTY_WALK);
    ProjectsExactly(sensitive, payload, allowlist, "root", 0, EMPTY_WALK);
    hide Project, Conforms, ValidateAllowlist, Listing;
  }

  /** When a projection is answered at all, and with what. */
  lemma ProjectionAnswersExactly(sensitive: Sensitive, payload: Data, allowlist: Allow)
    ensures var r, out := ProjectDiagnostics(sensitive, payload, allowlist), Prune(sensitive, payload, allowlist);
      && (r.Ok? <==>
            && allowlist.Fields? && WellFormedAllow(sensitive, allowlist, 0)
            && Within(Budget(AllowNodes(allowlist), AllowKeys(allowlist)))
            && Placeable(sensitive, payload, allowlist, 0)
            && Within(Budget(Nodes(out), KeysSeen(sensitive, payload, allowlist))))
      && (r.Ok? ==> r.value.value == out && r.value.redactedCount == |Dropped(sensitive, payload, allowlist, "root")|)
      && (r.Ok? ==> r.value.report == Listing(Dropped(sensitive, payload, allowlist, "root")))
  {
    ValidatesExactly(sensitive, allowlist, 0, Budget(0, 0));
    ProjectFromRoot(sensitive, payload, allowlist);
    hide Project, ValidateAllowlist, WellFormedAllow, Placeable, Prune, Dropped, Nodes, KeysSeen, Listing;
    hide AllowNodes, AllowKeys;
  }

  lemma ProjectFromRoot(sensitive: Sensitive, payload: Data, allowlist: Allow)
    ensures var r := Project(sensitive, payload, allowlist, "root", 0, EMPTY_WALK);
      var out := Prune(sensitive, payload, allowlist);
      && (r.Ok? <==>
            && Placeable(sensitive, payload, allowlist, 0)
            && Within(Budget(Nodes(out), KeysSeen(sensitive, payload, allowlist))))
      && (r.Ok? ==> r.value.0 == out && r.value.1.reports == Dropped(sensitive, payload, allowlist, "root"))
  {
    ProjectsExactly(sensitive, payload, allowlist, "root", 0, EMPTY_WALK);
    hide Project, Placeable, Prune, Dropped, Nodes, KeysSeen;
    assert EMPTY_WALK.reports + Dropped(sensitive, payload, allowlist, "root")
        == Dropped(sensitive, payload, allowlist, "root");
  }

  /** Every report the projection yields is one the stored redaction state admits. */
  lemma ReportsAreAdmissible(sensitive: Sensitive, payload: Data, allowlist: Allow)
    requires ProjectDiagnostics(sensitive, payload, allowlist).Ok?
    ensures ReportAdmissible(ProjectDiagnostics(sensitive, payload, allowlist).value)
  {
    hide Project, Conforms, ValidateAllowlist, RedactionPath, Before, PairBefore;
    var p := ProjectDiagnostics(sensitive, payload, allowlist).value;
    var w := Project(sensitive, payload, allowlist, "root", 0, EMPTY_WALK).value.1;
    ProjectionSound(sensitive, payload, allowlist);
    assert Steps([]) == "root";
    ProjectReportsPaths(sensitive, payload, allowlist, [], EMPTY_WALK);
    ListingAdmissible(w);
  }

  lemma NotBeforeItself(p: (string, string))
    ensures !PairBefore(p, p)
  {
    PairsAreOrdered();
  }

  lemma ListingAdmissible(w: Walk)
    requires ReportsArePaths(w) && |w.reports| <= MAX_SAFE_INTEGER
    ensures ReportAdmissible(Projection(Leaf(OtherPrim), |w.reports|, Listing(w.reports)))
  {
    hide RedactionPath, PairBefore, Listing;
    var report := Listing(w.reports);
    ListingIsExact(w.reports);
    forall i, j | 0 <= i < j < |report| ensures Pair(report[i]) != Pair(report[j]) {
      NotBeforeItself(Pair(report[i]));
    }
    CountsAtMostTotal(report, w.reports);
    forall i | 0 <= i < |report|
      ensures 1 <= report[i].count <= MAX_SAFE_INTEGER && RedactionPath(report[i].path)
        && 1 <= |report[i].path| <= MAX_PATH_LENGTH
    {
      CountAtMostTotal(w.reports, Pair(report[i]));
      RedactionPathsAreShort(report[i].path);
    }
  }

  lemma CountAtMostTotal(reports: multiset<(string, string)>, key: (string, string))
    ensures reports[key] <= |reports|
  {
    assert |reports[key := 0]| == |reports| - reports[key];
  }

  /** Projecting the result again gives the same value with nothing redacted. */
  lemma ProjectionIdempotent(sensitive: Sensitive, payload: Data, allowlist: Allow)
    requires ProjectDiagnostics(sensitive, payload, allowlist).Ok?
    ensures var value := ProjectDiagnostics(sensitive, payload, allowlist).value.value;
      ProjectDiagnostics(sensitive, value, allowlist) == Ok(Projection(value, 0, []))
  {
    var r := Project(sensitive, payload, allowlist, "root", 0, EMPTY_WALK).value;
    ProjectionSound(sensitive, payload, allowlist);
    ConformingIsFixed(sensitive, r.0, allowlist, "root", 0, EMPTY_WALK);
    ListingIsExact(multiset{});
    hide Project, Conforms, ValidateAllowlist, Listing, Before, PairBefore;
    assert |Listing(multiset{})| == 0;
  }
}
