/** What the slog handler forwards: nested attributes and derived handlers
    flattened into one map of dotted keys. */
module SlogFields {
  import opened Sequences

  /** Attribute values: plain ones, groups, and values that produce another
      value when asked. Plain payloads are opaque. */
  datatype Value = Plain(payload: string) | Group(attrs: seq<Attr>) | Deferred(value: Value)

  datatype Attr = Attr(key: string, value: Value)

  /** An attribute bound to the group path that was open when it was added. */
  datatype Entry = Entry(attr: Attr, groups: seq<string>)

  datatype Handler = Handler(entries: seq<Entry>, groups: seq<string>)

  /** `time` 0 is the zero time. */
  datatype Record = Record(time: nat, level: int, message: string, attrs: seq<Attr>)

  datatype Level = Debug | Info | Warn | Error

  datatype Field = Payload(payload: string) | TimeStamp(time: nat) | LevelName(level: int)

  datatype Line = Line(level: Level, message: string, fields: map<string, Field>)

  const SLOG_TIME := "slog_time"
  const SLOG_LEVEL := "slog_level"

  function LevelOf(level: int): Level {
    if level < 0 then Debug else if level < 4 then Info else if level < 8 then Warn else Error
  }

  /** The levels that have names in slog. */
  function NamedLevel(l: Level): int {
    match l
    case Debug => -4
    case Info => 0
    case Warn => 4
    case Error => 8
  }

  /** A level counts as the highest named one it reaches, and as Debug if it
      reaches none. */
  lemma LevelRoundsDown(level: int, named: Level)
    ensures LevelOf(NamedLevel(named)) == named
    ensures LevelOf(level) == named <==>
              && (named == Debug || NamedLevel(named) <= level)
              && (forall l :: NamedLevel(named) < NamedLevel(l) ==> level < NamedLevel(l))
  {
    if level < NamedLevel(Info) {
    } else if level < NamedLevel(Warn) {
    } else if level < NamedLevel(Error) {
    }
  }

  function Resolve(v: Value): (r: Value)
    ensures !r.Deferred?
    ensures r == v || r < v
  {
    if v.Deferred? then Resolve(v.value) else v
  }

  /** Path elements joined with dots. */
  function Join(path: seq<string>): string {
    if path == [] then ""
    else if |path| == 1 then path[0]
    else path[0] + "." + Join(path[1..])
  }

  // --- leaves, in the order in which they are visited -----------------------

  datatype Leaf = Leaf(path: seq<string>, payload: string)

  function LeavesOf(key: string, value: Value, groups: seq<string>): seq<Leaf>
    decreases value, 1
  {
    match Resolve(value)
    case Plain(x) => [Leaf(groups + [key], x)]
    case Group(attrs) => LeavesOfAll(attrs, groups + [key])
    case Deferred(_) => []
  }

  function LeavesOfAll(attrs: seq<Attr>, groups: seq<string>): seq<Leaf>
    decreases attrs, 0
  {
    if attrs == [] then []
    else LeavesOf(attrs[0].key, attrs[0].value, groups) + LeavesOfAll(attrs[1..], groups)
  }

  function LeavesOfEntries(entries: seq<Entry>): seq<Leaf> {
    if entries == [] then []
    else LeavesOf(entries[0].attr.key, entries[0].attr.value, entries[0].groups) + LeavesOfEntries(entries[1..])
  }

  function Leaves(h: Handler, attrs: seq<Attr>): seq<Leaf> {
    LeavesOfEntries(h.entries) + LeavesOfAll(attrs, h.groups)
  }

  // --- the emitted line --------------------------------------------------------

  /** Each leaf written into the map in turn: a later one overwrites. */
  function Put(fields: map<string, Field>, leaves: seq<Leaf>): map<string, Field>
    decreases |leaves|
  {
    if leaves == [] then fields
    else Put(fields[Join(leaves[0].path) := Payload(leaves[0].payload)], leaves[1..])
  }

  function Stamp(fields: map<string, Field>, r: Record): map<string, Field> {
    var timed := if r.time == 0 then fields else fields[SLOG_TIME := TimeStamp(r.time)];
    timed[SLOG_LEVEL := LevelName(r.level)]
  }

  function Emit(h: Handler, r: Record): Line {
    Line(LevelOf(r.level), r.message, Stamp(Put(map[], Leaves(h, r.attrs)), r))
  }

  // --- derived handlers ----------------------------------------------------------

  datatype Derivation = WithAttrs(attrs: seq<Attr>) | WithGroup(name: string)

  function Bind(attrs: seq<Attr>, groups: seq<string>): (entries: seq<Entry>)
    ensures |entries| == |attrs|
    ensures forall i :: 0 <= i < |attrs| ==> entries[i] == Entry(attrs[i], groups)
  {
    seq(|attrs|, i requires 0 <= i < |attrs| => Entry(attrs[i], groups))
  }

  function Derive1(h: Handler, d: Derivation): Handler {
    match d
    case WithAttrs(attrs) => Handler(h.entries + Bind(attrs, h.groups), h.groups)
    case WithGroup(name) => if name == "" then h else Handler(h.entries, h.groups + [name])
  }

  function Derive(h: Handler, ds: seq<Derivation>): Handler
    decreases |ds|
  {
    if ds == [] then h else Derive(Derive1(h, ds[0]), ds[1..])
  }

  /** The attributes that say in one record what a chain of derivations and a
      record's own attributes say together. */
  function Nest(ds: seq<Derivation>, attrs: seq<Attr>): seq<Attr> {
    if ds == [] then attrs
    else
      match ds[0]
      case WithAttrs(more) => more + Nest(ds[1..], attrs)
      case WithGroup(name) =>
        if name == "" then Nest(ds[1..], attrs) else [Attr(name, Group(Nest(ds[1..], attrs)))]
  }

  lemma {:induction false} LeavesOfAllConcat(a: seq<Attr>, b: seq<Attr>, groups: seq<string>)
    ensures LeavesOfAll(a + b, groups) == LeavesOfAll(a, groups) + LeavesOfAll(b, groups)
  {
    if a == [] {
      assert a + b == b;
    } else {
      assert (a + b)[1..] == a[1..] + b;
      LeavesOfAllConcat(a[1..], b, groups);
    }
  }

  lemma {:induction false} LeavesOfEntriesConcat(a: seq<Entry>, b: seq<Entry>)
    ensures LeavesOfEntries(a + b) == LeavesOfEntries(a) + LeavesOfEntries(b)
  {
    if a == [] {
      assert a + b == b;
    } else {
      assert (a + b)[1..] == a[1..] + b;
      LeavesOfEntriesConcat(a[1..], b);
    }
  }

  lemma {:induction false} LeavesOfBound(attrs: seq<Attr>, groups: seq<string>)
    ensures LeavesOfEntries(Bind(attrs, groups)) == LeavesOfAll(attrs, groups)
  {
    if attrs != [] {
      assert Bind(attrs, groups)[1..] == Bind(attrs[1..], groups);
      LeavesOfBound(attrs[1..], groups);
    }
  }

  /** A derived handler visits exactly the leaves, in exactly the order, that the
      base handler visits when given the nested attributes. */
  lemma {:induction false} DerivedLeaves(h: Handler, ds: seq<Derivation>, attrs: seq<Attr>)
    ensures Leaves(Derive(h, ds), attrs) == Leaves(h, Nest(ds, attrs))
    decreases |ds|
  {
    if ds != [] {
      var h', rest := Derive1(h, ds[0]), Nest(ds[1..], attrs);
      DerivedLeaves(h', ds[1..], attrs);
      match ds[0] {
        case WithAttrs(more) =>
          LeavesOfEntriesConcat(h.entries, Bind(more, h.groups));
          LeavesOfBound(more, h.groups);
          LeavesOfAllConcat(more, rest, h.groups);
        case WithGroup(name) =>
          if name != "" {
            var group := [Attr(name, Group(rest))];
            assert LeavesOfAll(group, h.groups)
                == LeavesOf(name, Group(rest), h.groups) + LeavesOfAll(group[1..], h.groups);
          }
      }
    }
  }

  /** Deriving preserves meaning: any chain of `WithAttrs` and `WithGroup` emits,
      for every record, the line the base handler emits for the nested record. */
  lemma DerivingIsNesting(h: Handler, ds: seq<Derivation>, r: Record)
    ensures Emit(Derive(h, ds), r) == Emit(h, r.(attrs := Nest(ds, r.attrs)))
  {
    DerivedLeaves(h, ds, r.attrs);
  }

  // --- what a field of the line holds ------------------------------------------

  lemma {:induction false} PutConcat(fields: map<string, Field>, a: seq<Leaf>, b: seq<Leaf>)
    ensures Put(fields, a + b) == Put(Put(fields, a), b)
    decreases |a|
  {
    if a == [] {
      assert a + b == b;
    } else {
      assert (a + b)[1..] == a[1..] + b;
      PutConcat(fields[Join(a[0].path) := Payload(a[0].payload)], a[1..], b);
    }
  }

  /** Leaf `i` is the last one with its key. */
  ghost predicate LastFor(leaves: seq<Leaf>, key: string, i: int) {
    && 0 <= i < |leaves| && Join(leaves[i].path) == key
    && forall j :: i < j < |leaves| ==> Join(leaves[j].path) != key
  }

  lemma {:induction false} PutIsLastWins(fields: map<string, Field>, leaves: seq<Leaf>, key: string)
    ensures (forall i :: 0 <= i < |leaves| ==> Join(leaves[i].path) != key) ==>
              (key in Put(fields, leaves) <==> key in fields)
              && (key in fields ==> Put(fields, leaves)[key] == fields[key])
    ensures (exists i :: 0 <= i < |leaves| && Join(leaves[i].path) == key) ==>
              exists i :: LastFor(leaves, key, i)
                && key in Put(fields, leaves) && Put(fields, leaves)[key] == Payload(leaves[i].payload)
    decreases |leaves|
  {
    if leaves != [] {
      var n := |leaves| - 1;
      var init, last := leaves[..n], leaves[n];
      assert leaves == init + [last];
      PutConcat(fields, init, [last]);
      assert [last][1..] == [];
      assert Put(fields, leaves) == Put(fields, init)[Join(last.path) := Payload(last.payload)];
      PutIsLastWins(fields, init, key);
      if Join(last.path) == key {
        assert LastFor(leaves, key, n);
      } else if i :| 0 <= i < |leaves| && Join(leaves[i].path) == key {
        assert Join(init[i].path) == key;
        var k :| LastFor(init, key, k) && Put(fields, init)[key] == Payload(init[k].payload);
        assert LastFor(leaves, key, k);
      }
    }
  }

  /** For every key: the level and a set time win; otherwise the last leaf in
      traversal order with that key does; and there are no other keys. */
  lemma LineHoldsLastLeaves(h: Handler, r: Record, key: string)
    ensures var fields, leaves := Emit(h, r).fields, Leaves(h, r.attrs);
            && (key == SLOG_LEVEL ==> key in fields && fields[key] == LevelName(r.level))
            && (key == SLOG_TIME && r.time != 0 ==> key in fields && fields[key] == TimeStamp(r.time))
            && (key != SLOG_LEVEL && !(key == SLOG_TIME && r.time != 0) ==>
                  && (key in fields <==> exists i :: 0 <= i < |leaves| && Join(leaves[i].path) == key)
                  && (key in fields ==>
                        exists i :: LastFor(leaves, key, i) && fields[key] == Payload(leaves[i].payload)))
  {
    PutIsLastWins(map[], Leaves(h, r.attrs), key);
  }

  // --- no attribute lost ----------------------------------------------------------

  predicate DotFree(s: string) {
    '.' !in s
  }

  /** A character in front joins the first piece, or starts a new one. */
  function Prepend(c: char, pieces: seq<string>): seq<string>
    requires pieces != []
  {
    if c == '.' then [""] + pieces else [[c] + pieces[0]] + pieces[1..]
  }

  /** The pieces between the dots. */
  function Split(s: string): (path: seq<string>)
    ensures path != []
  {
    if s == "" then [""] else Prepend(s[0], Split(s[1..]))
  }

  lemma SplitCons(c: char, s: string)
    ensures Split([c] + s) == Prepend(c, Split(s))
  {
    assert ([c] + s)[1..] == s;
  }

  lemma PrependConcat(c: char, a: seq<string>, b: seq<string>)
    requires a != []
    ensures Prepend(c, a + b) == Prepend(c, a) + b
  {
    assert (a + b)[1..] == a[1..] + b;
  }

  lemma {:induction false} SplitConcat(a: string, s: string)
    ensures Split(a + "." + s) == Split(a) + Split(s)
  {
    hide Split, Prepend;
    if a == "" {
      assert a + "." + s == ['.'] + s;
      SplitCons('.', s);
      SplitEmpty(Split(s));
    } else {
      var tail := a[1..] + "." + s;
      assert a + "." + s == [a[0]] + tail && a == [a[0]] + a[1..];
      SplitConcat(a[1..], s);
      SplitCons(a[0], tail);
      SplitCons(a[0], a[1..]);
      PrependConcat(a[0], Split(a[1..]), Split(s));
    }
  }

  lemma SplitEmpty(pieces: seq<string>)
    requires pieces != []
    ensures Prepend('.', pieces) == Split("") + pieces
  {
  }

  lemma {:induction false} JoinUndoesSplit(s: string)
    ensures Join(Split(s)) == s
  {
    if s != "" {
      JoinUndoesSplit(s[1..]);
      var rest := Split(s[1..]);
      assert [s[0]] + s[1..] == s;
      if s[0] == '.' {
        assert ([""] + rest)[1..] == rest;
      } else {
        var pieces := [[s[0]] + rest[0]] + rest[1..];
        assert pieces[1..] == rest[1..];
        assert ([s[0]] + rest[0]) + "." + Join(rest[1..]) == [s[0]] + (rest[0] + "." + Join(rest[1..]));
      }
    }
  }

  /** The pieces of all elements of a path. */
  function Parts(path: seq<string>): seq<string> {
    if path == [] then [] else Split(path[0]) + Parts(path[1..])
  }

  lemma {:induction false} SplitJoin(path: seq<string>)
    requires path != []
    ensures Split(Join(path)) == Parts(path)
  {
    if |path| == 1 {
      assert Parts(path[1..]) == [];
    } else {
      SplitJoin(path[1..]);
      SplitConcat(path[0], Join(path[1..]));
    }
  }

  /** Exactly when two paths meet in one key: when their elements fall into the
      same pieces. */
  lemma SameKeyExactly(p: seq<string>, q: seq<string>)
    requires p != [] && q != []
    ensures Join(p) == Join(q) <==> Parts(p) == Parts(q)
  {
    SplitJoin(p);
    SplitJoin(q);
    JoinUndoesSplit(Join(p));
    JoinUndoesSplit(Join(q));
  }

  lemma {:induction false} SplitDotFree(a: string)
    requires DotFree(a)
    ensures Split(a) == [a]
  {
    if a != "" {
      SplitDotFree(a[1..]);
      assert [a[0]] + a[1..] == a;
    }
  }

  lemma {:induction false} PartsOfDotFree(path: seq<string>)
    requires forall p :: p in path ==> DotFree(p)
    ensures Parts(path) == path
  {
    if path != [] {
      SplitDotFree(path[0]);
      PartsOfDotFree(path[1..]);
    }
  }

  /** Splitting undoes joining, so the dotted key determines the path. */
  lemma SplitUndoesJoin(path: seq<string>)
    requires path != [] && forall p :: p in path ==> DotFree(p)
    ensures Split(Join(path)) == path
  {
    SplitJoin(path);
    PartsOfDotFree(path);
  }

  // --- which leaf a field shows ---------------------------------------------------

  ghost predicate HavePaths(leaves: seq<Leaf>) {
    forall l :: l in leaves ==> l.path != []
  }

  lemma {:induction false} LeavesHavePaths(key: string, value: Value, groups: seq<string>)
    ensures HavePaths(LeavesOf(key, value, groups))
    decreases value, 1
  {
    if Resolve(value).Group? {
      AllLeavesHavePaths(Resolve(value).attrs, groups + [key]);
    }
  }

  lemma {:induction false} AllLeavesHavePaths(attrs: seq<Attr>, groups: seq<string>)
    ensures HavePaths(LeavesOfAll(attrs, groups))
    decreases attrs, 0
  {
    if attrs != [] {
      LeavesHavePaths(attrs[0].key, attrs[0].value, groups);
      AllLeavesHavePaths(attrs[1..], groups);
    }
  }

  lemma {:induction false} EntryLeavesHavePaths(entries: seq<Entry>)
    ensures HavePaths(LeavesOfEntries(entries))
  {
    if entries != [] {
      LeavesHavePaths(entries[0].attr.key, entries[0].attr.value, entries[0].groups);
      EntryLeavesHavePaths(entries[1..]);
    }
  }

  /** The level, or a set time, takes the key of this path. */
  predicate StampedOver(path: seq<string>, r: Record) {
    Parts(path) == [SLOG_LEVEL] || (Parts(path) == [SLOG_TIME] && r.time != 0)
  }

  /** Leaf `j` is the last one whose path falls into these pieces. */
  ghost predicate LastWith(leaves: seq<Leaf>, parts: seq<string>, j: int) {
    && 0 <= j < |leaves| && Parts(leaves[j].path) == parts
    && forall k :: j < k < |leaves| ==> Parts(leaves[k].path) != parts
  }

  lemma StampsExactly(path: seq<string>)
    requires path != []
    ensures Join(path) == SLOG_LEVEL <==> Parts(path) == [SLOG_LEVEL]
    ensures Join(path) == SLOG_TIME <==> Parts(path) == [SLOG_TIME]
  {
    hide Parts, Split;
    PartsOfDotFree([SLOG_LEVEL]);
    PartsOfDotFree([SLOG_TIME]);
    SameKeyExactly(path, [SLOG_LEVEL]);
    SameKeyExactly(path, [SLOG_TIME]);
  }

  lemma LastWithIsLastFor(leaves: seq<Leaf>, i: nat, j: int)
    requires HavePaths(leaves) && i < |leaves|
    ensures LastWith(leaves, Parts(leaves[i].path), j) <==> LastFor(leaves, Join(leaves[i].path), j)
  {
    forall k | 0 <= k < |leaves|
      ensures Join(leaves[k].path) == Join(leaves[i].path) <==> Parts(leaves[k].path) == Parts(leaves[i].path)
    {
      SameKeyExactly(leaves[k].path, leaves[i].path);
    }
  }

  /** For any keys and group names, dots or not: every leaf's key is in the line,
      and it shows the payload of this leaf exactly when no stamp takes the key and
      the last leaf with the same pieces has that payload. */
  lemma LeafShownExactly(h: Handler, r: Record, i: nat)
    requires i < |Leaves(h, r.attrs)|
    ensures var leaves, fields := Leaves(h, r.attrs), Emit(h, r).fields;
            var leaf := leaves[i];
            && Join(leaf.path) in fields
            && (fields[Join(leaf.path)] == Payload(leaf.payload) <==>
                  && !StampedOver(leaf.path, r)
                  && exists j :: LastWith(leaves, Parts(leaf.path), j) && leaves[j].payload == leaf.payload)
  {
    hide Emit, Parts, Join, LastFor, LastWith;
    var leaves, fields := Leaves(h, r.attrs), Emit(h, r).fields;
    var key := Join(leaves[i].path);
    EntryLeavesHavePaths(h.entries);
    AllLeavesHavePaths(r.attrs, h.groups);
    StampsExactly(leaves[i].path);
    LineHoldsLastLeaves(h, r, key);
    forall j
      ensures LastWith(leaves, Parts(leaves[i].path), j) <==> LastFor(leaves, key, j)
    {
      LastWithIsLastFor(leaves, i, j);
    }
    forall j, k | LastFor(leaves, key, j) && LastFor(leaves, key, k)
      ensures j == k
    {
      LastIsUnique(leaves, key, j, k);
    }
  }

  lemma LastIsUnique(leaves: seq<Leaf>, key: string, j: int, k: int)
    requires LastFor(leaves, key, j) && LastFor(leaves, key, k)
    ensures j == k
  {
  }

  // --- with dot-free names -----------------------------------------------------------

  predicate PlainlyNamed(key: string, value: Value)
    decreases value, 1
  {
    && DotFree(key)
    && match Resolve(value)
       case Group(attrs) => AllPlainlyNamed(attrs)
       case _ => true
  }

  predicate AllPlainlyNamed(attrs: seq<Attr>)
    decreases attrs, 0
  {
    attrs != [] ==> PlainlyNamed(attrs[0].key, attrs[0].value) && AllPlainlyNamed(attrs[1..])
  }

  predicate HandlerPlainlyNamed(h: Handler) {
    && (forall g :: g in h.groups ==> DotFree(g))
    && forall e :: e in h.entries ==>
         PlainlyNamed(e.attr.key, e.attr.value) && forall g :: g in e.groups ==> DotFree(g)
  }

  ghost predicate DotFreePaths(leaves: seq<Leaf>) {
    forall l :: l in leaves ==> l.path != [] && forall p :: p in l.path ==> DotFree(p)
  }

  lemma {:induction false} LeavesPlainlyNamed(key: string, value: Value, groups: seq<string>)
    requires PlainlyNamed(key, value) && forall g :: g in groups ==> DotFree(g)
    ensures DotFreePaths(LeavesOf(key, value, groups))
    decreases value, 1
  {
    if Resolve(value).Group? {
      AllLeavesPlainlyNamed(Resolve(value).attrs, groups + [key]);
    }
  }

  lemma {:induction false} AllLeavesPlainlyNamed(attrs: seq<Attr>, groups: seq<string>)
    requires AllPlainlyNamed(attrs) && forall g :: g in groups ==> DotFree(g)
    ensures DotFreePaths(LeavesOfAll(attrs, groups))
    decreases attrs, 0
  {
    if attrs != [] {
      LeavesPlainlyNamed(attrs[0].key, attrs[0].value, groups);
      AllLeavesPlainlyNamed(attrs[1..], groups);
    }
  }

  lemma {:induction false} EntryLeavesPlainlyNamed(entries: seq<Entry>)
    requires forall e :: e in entries ==>
               PlainlyNamed(e.attr.key, e.attr.value) && forall g :: g in e.groups ==> DotFree(g)
    ensures DotFreePaths(LeavesOfEntries(entries))
  {
    if entries != [] {
      LeavesPlainlyNamed(entries[0].attr.key, entries[0].attr.value, entries[0].groups);
      EntryLeavesPlainlyNamed(entries[1..]);
    }
  }

  /** With dot-free keys and group names a leaf is overwritten only by a later
      leaf at the very same path, or by the level or time stamp. */
  lemma NoAttributeLost(h: Handler, r: Record, i: nat)
    requires HandlerPlainlyNamed(h) && AllPlainlyNamed(r.attrs)
    requires var leaves := Leaves(h, r.attrs);
             && i < |leaves|
             && (forall j :: i < j < |leaves| ==> leaves[j].path != leaves[i].path)
             && leaves[i].path != [SLOG_LEVEL] && leaves[i].path != [SLOG_TIME]
    ensures var leaf, fields := Leaves(h, r.attrs)[i], Emit(h, r).fields;
            Join(leaf.path) in fields && fields[Join(leaf.path)] == Payload(leaf.payload)
  {
    var leaves := Leaves(h, r.attrs);
    LeavesAreDotFree(h, r.attrs);
    forall j | 0 <= j < |leaves|
      ensures Parts(leaves[j].path) == leaves[j].path
    {
      PartsOfDotFree(leaves[j].path);
    }
    assert LastWith(leaves, Parts(leaves[i].path), i);
    LeafShownExactly(h, r, i);
  }

  lemma LeavesAreDotFree(h: Handler, attrs: seq<Attr>)
    requires HandlerPlainlyNamed(h) && AllPlainlyNamed(attrs)
    ensures var leaves := Leaves(h, attrs);
            forall i :: 0 <= i < |leaves| ==>
              leaves[i].path != [] && forall p :: p in leaves[i].path ==> DotFree(p)
  {
    EntryLeavesPlainlyNamed(h.entries);
    AllLeavesPlainlyNamed(attrs, h.groups);
    var leaves := Leaves(h, attrs);
    assert forall i {:trigger leaves[i]} :: 0 <= i < |leaves| ==>
      leaves[i] in LeavesOfEntries(h.entries) || leaves[i] in LeavesOfAll(attrs, h.groups);
  }

  /** Without that proviso an attribute can be lost: a dotted key and a nested
      one meet, and only the later is forwarded. */
  lemma DotsCanLoseAttributes(x: string, y: string)
    ensures var r := Record(0, 0, "", [Attr("a.b", Plain(x)), Attr("a", Group([Attr("b", Plain(y))]))]);
            && Leaves(Handler([], []), r.attrs) == [Leaf(["a.b"], x), Leaf(["a", "b"], y)]
            && Emit(Handler([], []), r).fields == map["a.b" := Payload(y), SLOG_LEVEL := LevelName(0)]
  {
    var inner := [Attr("b", Plain(y))];
    var attrs := [Attr("a.b", Plain(x)), Attr("a", Group(inner))];
    assert inner[1..] == [];
    assert ["a"] + ["b"] == ["a", "b"];
    assert LeavesOfAll(inner[1..], ["a"]) == [];
    assert LeavesOfAll(inner, ["a"]) == [Leaf(["a", "b"], y)];
    assert attrs[1..] == [Attr("a", Group(inner))] && attrs[1..][1..] == [];
    assert [] + ["a"] == ["a"] && [] + ["a.b"] == ["a.b"];
    assert LeavesOf("a", Group(inner), []) == LeavesOfAll(inner, ["a"]);
    assert LeavesOfAll(attrs[1..][1..], []) == [];
    assert LeavesOfAll(attrs[1..], []) == [Leaf(["a", "b"], y)];
    assert LeavesOfAll(attrs, []) == [Leaf(["a.b"], x), Leaf(["a", "b"], y)];
    assert ["a", "b"][1..] == ["b"];
    assert Join(["a", "b"]) == "a.b";
    var leaves := [Leaf(["a.b"], x), Leaf(["a", "b"], y)];
    assert leaves[1..] == [Leaf(["a", "b"], y)] && leaves[1..][1..] == [];
    assert Put(map["a.b" := Payload(y)], leaves[1..][1..]) == map["a.b" := Payload(y)];
    assert Put(map["a.b" := Payload(x)], leaves[1..]) == map["a.b" := Payload(y)];
    assert Put(map[], leaves) == map["a.b" := Payload(y)];
  }

  // ---------------------------------------------------------------------
  // The line, written down without paths or leaves
  // ---------------------------------------------------------------------

  function WrittenOne(fields: map<string, Field>, key: string, value: Value, prefix: string): map<string, Field>
    decreases value, 1
  {
    match value
    case Plain(x) => fields[prefix + key := Payload(x)]
    case Group(attrs) => Written(fields, attrs, prefix + key + ".")
    case Deferred(v) => WrittenOne(fields, key, v, prefix)
  }

  /** Attributes written one after the other under a prefix; a group lengthens it
      by its key and a dot. */
  function Written(fields: map<string, Field>, attrs: seq<Attr>, prefix: string): map<string, Field>
    decreases attrs, 0
  {
    if attrs == [] then fields
    else Written(WrittenOne(fields, attrs[0].key, attrs[0].value, prefix), attrs[1..], prefix)
  }

  function WrittenEntries(fields: map<string, Field>, entries: seq<Entry>): map<string, Field>
    decreases |entries|
  {
    if entries == [] then fields
    else
      var e := entries[0];
      WrittenEntries(WrittenOne(fields, e.attr.key, e.attr.value, Prefix(e.groups)), entries[1..])
  }

  function Prefix(groups: seq<string>): string {
    if groups == [] then "" else groups[0] + "." + Prefix(groups[1..])
  }

  lemma {:induction false} PrefixKey(groups: seq<string>, key: string)
    ensures Join(groups + [key]) == Prefix(groups) + key
    ensures Prefix(groups + [key]) == Prefix(groups) + key + "."
  {
    if groups == [] {
      assert groups + [key] == [key] && [key][1..] == [];
    } else {
      PrefixKey(groups[1..], key);
      var path := groups + [key];
      assert path[1..] == groups[1..] + [key];
      Regroup(groups[0] + ".", Prefix(groups[1..]), key);
      Regroup(groups[0] + ".", Prefix(groups[1..]) + key, ".");
    }
  }

  lemma {:induction false} WrittenOneIsPut(fields: map<string, Field>, key: string, value: Value, groups: seq<string>)
    ensures Put(fields, LeavesOf(key, value, groups)) == WrittenOne(fields, key, value, Prefix(groups))
    decreases value, 1
  {
    PrefixKey(groups, key);
    match value {
      case Plain(x) =>
        var leaf := Leaf(groups + [key], x);
        assert [leaf][1..] == [];
      case Group(attrs) => WrittenIsPut(fields, attrs, groups + [key]);
      case Deferred(v) => WrittenOneIsPut(fields, key, v, groups);
    }
  }

  lemma {:induction false} WrittenIsPut(fields: map<string, Field>, attrs: seq<Attr>, groups: seq<string>)
    ensures Put(fields, LeavesOfAll(attrs, groups)) == Written(fields, attrs, Prefix(groups))
    decreases attrs, 0
  {
    if attrs != [] {
      var first := LeavesOf(attrs[0].key, attrs[0].value, groups);
      PutConcat(fields, first, LeavesOfAll(attrs[1..], groups));
      WrittenOneIsPut(fields, attrs[0].key, attrs[0].value, groups);
      WrittenIsPut(Put(fields, first), attrs[1..], groups);
    }
  }

  lemma {:induction false} WrittenEntriesIsPut(fields: map<string, Field>, entries: seq<Entry>)
    ensures Put(fields, LeavesOfEntries(entries)) == WrittenEntries(fields, entries)
    decreases |entries|
  {
    if entries != [] {
      var e := entries[0];
      var first := LeavesOf(e.attr.key, e.attr.value, e.groups);
      PutConcat(fields, first, LeavesOfEntries(entries[1..]));
      WrittenOneIsPut(fields, e.attr.key, e.attr.value, e.groups);
      WrittenEntriesIsPut(Put(fields, first), entries[1..]);
    }
  }

  function Stamped(fields: map<string, Field>, time: nat, level: int): map<string, Field> {
    (if time == 0 then fields else fields["slog_time" := TimeStamp(time)])["slog_level" := LevelName(level)]
  }

  /** The whole line: the bound attributes are written first, each under the groups
      it was bound in, then the record's under the open groups, then the stamps. */
  lemma LineIsWritten(h: Handler, r: Record)
    ensures var line := Emit(h, r);
            && line.fields
                 == Stamped(Written(WrittenEntries(map[], h.entries), r.attrs, Prefix(h.groups)), r.time, r.level)
            && line.message == r.message
            && (line.level == Debug <==> r.level < 0)
            && (line.level == Info <==> 0 <= r.level < 4)
            && (line.level == Warn <==> 4 <= r.level < 8)
            && (line.level == Error <==> 8 <= r.level)
  {
    PutConcat(map[], LeavesOfEntries(h.entries), LeavesOfAll(r.attrs, h.groups));
    WrittenEntriesIsPut(map[], h.entries);
    WrittenIsPut(Put(map[], LeavesOfEntries(h.entries)), r.attrs, h.groups);
  }

  /** An attribute inside so many groups. */
  function Nested(names: seq<string>, attr: Attr): Attr {
    if names == [] then attr else Attr(names[0], Group([Nested(names[1..], attr)]))
  }

  lemma WrittenSingle(fields: map<string, Field>, a: Attr, prefix: string)
    ensures Written(fields, [a], prefix) == WrittenOne(fields, a.key, a.value, prefix)
  {
    assert [a][1..] == [];
  }

  lemma {:induction false} WrittenNested(fields: map<string, Field>, names: seq<string>, attr: Attr, prefix: string)
    requires attr.value.Plain?
    ensures var a := Nested(names, attr);
            WrittenOne(fields, a.key, a.value, prefix)
              == fields[prefix + (Prefix(names) + attr.key) := Payload(attr.value.payload)]
  {
    if names == [] {
      assert "" + attr.key == attr.key;
    } else {
      var inner := Nested(names[1..], attr);
      WrittenSingle(fields, inner, prefix + names[0] + ".");
      WrittenNested(fields, names[1..], attr, prefix + names[0] + ".");
      var q, rest := names[0] + ".", Prefix(names[1..]);
      Regroup(prefix, names[0], ".");
      Regroup(prefix, q, rest + attr.key);
      Regroup(q, rest, attr.key);
    }
  }

  /** One attribute in groups within the open groups gives one field, named by all
      of them in order, besides the stamps. */
  lemma OneAttributeOneField(groups: seq<string>, names: seq<string>, key: string, x: string,
                             time: nat, level: int, message: string)
    ensures var attr := Nested(names, Attr(key, Plain(x)));
            var line := Emit(Handler([], groups), Record(time, level, message, [attr]));
            && line.fields == Stamped(map[Prefix(groups + names) + key := Payload(x)], time, level)
            && Prefix(groups + names) + key == Join(groups + names + [key])
            && line.message == message
  {
    var attr := Nested(names, Attr(key, Plain(x)));
    var r := Record(time, level, message, [attr]);
    LineIsWritten(Handler([], groups), r);
    WrittenSingle(map[], attr, Prefix(groups));
    WrittenNested(map[], names, Attr(key, Plain(x)), Prefix(groups));
    PrefixConcat(groups, names);
    Regroup(Prefix(groups), Prefix(names), key);
    PrefixKey(groups + names, key);
  }

  lemma {:induction false} PrefixConcat(a: seq<string>, b: seq<string>)
    ensures Prefix(a + b) == Prefix(a) + Prefix(b)
  {
    if a == [] {
      assert a + b == b;
    } else {
      assert (a + b)[1..] == a[1..] + b;
      PrefixConcat(a[1..], b);
      Regroup(a[0] + ".", Prefix(a[1..]), Prefix(b));
    }
  }

  /** An attribute bound in a group, and one of a record given to a handler derived
      from there, each stand under the groups open where they came in, and the
      record's is written last. */
  lemma BoundAndOwn(g: string, s: string, k: string, own: string, x: string, y: string, level: int)
    requires g != "" && s != ""
    ensures var h := Derive(Handler([], []), [WithGroup(g), WithAttrs([Attr(k, Plain(x))]), WithGroup(s)]);
            Emit(h, Record(0, level, "", [Attr(own, Plain(y))])).fields
              == Stamped(map[g + "." + k := Payload(x)][g + "." + s + "." + own := Payload(y)], 0, level)
  {
    var bound, mine := Attr(k, Plain(x)), Attr(own, Plain(y));
    var ds := [WithGroup(g), WithAttrs([bound]), WithGroup(s)];
    var r := Record(0, level, "", [mine]);
    var h := Handler([Entry(bound, [g])], [g, s]);
    DeriveThree(g, bound, s);
    LineIsWritten(h, r);
    assert [mine][1..] == [] && h.entries[1..] == [];
    PrefixOfTwo(g, s);
    assert WrittenEntries(map[], h.entries) == map[g + "." + k := Payload(x)];
  }

  /** A group without a name changes nothing. */
  lemma UnnamedGroup(h: Handler, ds: seq<Derivation>, r: Record)
    ensures Emit(Derive(h, [WithGroup("")] + ds), r) == Emit(Derive(h, ds), r)
  {
    assert ([WithGroup("")] + ds)[1..] == ds;
  }

  lemma PrefixOfTwo(g: string, s: string)
    ensures Prefix([g]) == g + "." && Prefix([g, s]) == g + "." + s + "."
  {
    assert [g][1..] == [] && [g, s][1..] == [s] && [s][1..] == [];
    assert Prefix([s]) == s + ".";
  }

  lemma DeriveThree(g: string, bound: Attr, s: string)
    requires g != "" && s != ""
    ensures Derive(Handler([], []), [WithGroup(g), WithAttrs([bound]), WithGroup(s)])
         == Handler([Entry(bound, [g])], [g, s])
  {
    var ds := [WithGroup(g), WithAttrs([bound]), WithGroup(s)];
    var h1 := Handler([], [g]);
    var h2 := Handler([Entry(bound, [g])], [g]);
    assert ds[1..] == [WithAttrs([bound]), WithGroup(s)] && ds[1..][1..] == [WithGroup(s)] && ds[1..][1..][1..] == [];
    assert Derive1(Handler([], []), ds[0]) == h1;
    assert Bind([bound], [g]) == [Entry(bound, [g])];
    assert Derive1(h1, ds[1]) == h2;
    assert Derive1(h2, ds[2]) == Handler([Entry(bound, [g])], [g, s]);
    assert Derive(h2, ds[1..][1..]) == Derive(Derive1(h2, WithGroup(s)), []);
    assert Derive(h1, ds[1..]) == Derive(h2, ds[1..][1..]);
  }
}
