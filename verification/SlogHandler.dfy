/** The handler object, whose attribute and group slices are shared with the
    handlers derived from it. */
module SlogHandler {
  import opened Slices
  import opened SlogFields

  datatype AttrEntry = AttrEntry(attr: Attr, groups: Slice<string>)

  /** The map a record's attributes are collected in. */
  class FieldMap {
    var m: map<string, Field>

    constructor ()
      ensures m == map[]
    {
      m := map[];
    }
  }

  /** `fields` gets the leaves of one attribute; a group recurses with its key
      added to a copy of the path. */
  method AppendAttr(fields: FieldMap, key: string, value: Value, groups: Slice<string>)
    requires Sound(groups) && fields !in Cells(groups)
    modifies fields
    ensures fields.m == Put(old(fields.m), LeavesOf(key, value, View(groups)))
    decreases value
  {
    var resolved := Resolve(value);
    if resolved.Group? {
      var subGroups := Append(Slice(null, 0, 0), View(groups));
      subGroups := Append(subGroups, [key]);
      for i := 0 to |resolved.attrs|
        invariant Sound(subGroups) && fields !in Cells(subGroups) && View(subGroups) == View(groups) + [key]
        invariant fields.m == Put(old(fields.m), LeavesOfAll(resolved.attrs[..i], View(groups) + [key]))
      {
        var sub := resolved.attrs[i];
        AppendAttr(fields, sub.key, sub.value, subGroups);
        PutNextAttr(old(fields.m), resolved.attrs, i, View(groups) + [key]);
      }
      assert resolved.attrs[..|resolved.attrs|] == resolved.attrs;
      return;
    }
    var path := View(groups) + [key];
    var name := if 0 < groups.len then Join(path) else key;
    fields.m := fields.m[name := Payload(resolved.payload)];
    assert [Leaf(path, resolved.payload)][1..] == [];
  }

  lemma PutNextAttr(fields: map<string, Field>, attrs: seq<Attr>, i: nat, groups: seq<string>)
    requires i < |attrs|
    ensures Put(Put(fields, LeavesOfAll(attrs[..i], groups)), LeavesOf(attrs[i].key, attrs[i].value, groups))
         == Put(fields, LeavesOfAll(attrs[..i + 1], groups))
  {
    assert attrs[..i + 1] == attrs[..i] + [attrs[i]];
    LeavesOfAllConcat(attrs[..i], [attrs[i]], groups);
    assert LeavesOfAll([attrs[i]], groups) == LeavesOf(attrs[i].key, attrs[i].value, groups) by {
      assert [attrs[i]][1..] == [];
    }
    PutConcat(fields, LeavesOfAll(attrs[..i], groups), LeavesOf(attrs[i].key, attrs[i].value, groups));
  }

  lemma PutNextEntry(fields: map<string, Field>, es: seq<Entry>, i: nat)
    requires i < |es|
    ensures Put(Put(fields, LeavesOfEntries(es[..i])), LeavesOf(es[i].attr.key, es[i].attr.value, es[i].groups))
         == Put(fields, LeavesOfEntries(es[..i + 1]))
  {
    assert es[..i + 1] == es[..i] + [es[i]];
    LeavesOfEntriesConcat(es[..i], [es[i]]);
    assert LeavesOfEntries([es[i]]) == LeavesOf(es[i].attr.key, es[i].attr.value, es[i].groups) by {
      assert [es[i]][1..] == [];
    }
    PutConcat(fields, LeavesOfEntries(es[..i]), LeavesOf(es[i].attr.key, es[i].attr.value, es[i].groups));
  }

  class LogrusHandler {
    const attrs: Slice<AttrEntry>
    const groups: Slice<string>

    /** The handler as a value, fixed for good when it is made. */
    ghost const meaning: Handler
    ghost const repr: set<object>

    /** The arrays still hold what the handler means. */
    ghost predicate Valid()
      reads repr
    {
      && Sound(attrs) && Cells(attrs) <= repr
      && Sound(groups) && Cells(groups) <= repr && View(groups) == meaning.groups
      && |View(attrs)| == |meaning.entries|
      && forall i :: 0 <= i < |meaning.entries| ==> Holds(View(attrs)[i], meaning.entries[i], repr)
    }

    constructor (attrs: Slice<AttrEntry>, groups: Slice<string>, ghost meaning: Handler, ghost repr: set<object>)
      ensures this.attrs == attrs && this.groups == groups && this.meaning == meaning && this.repr == repr
    {
      this.attrs, this.groups, this.meaning, this.repr := attrs, groups, meaning, repr;
    }

    /** Binds each new attribute to the open group path, in a new array. */
    method WithAttrs(attrs: seq<Attr>) returns (child: LogrusHandler)
      requires Valid()
      ensures child.Valid() && fresh(child) && fresh(child.repr - repr)
      ensures child.meaning == Derive1(meaning, Derivation.WithAttrs(attrs))
    {
      var merged := Merge(attrs);
      child := new LogrusHandler(merged, groups, Derive1(meaning, Derivation.WithAttrs(attrs)), repr + Cells(merged));
      assert Valid();
      MergedHolds(View(this.attrs), meaning.entries, attrs, groups, meaning.groups, repr, child.repr);
    }

    /** The handler's entries and the new ones, in an array of their own. */
    method Merge(attrs: seq<Attr>) returns (merged: Slice<AttrEntry>)
      requires Valid()
      ensures Sound(merged) && fresh(Cells(merged))
      ensures View(merged) == View(this.attrs) + Tagged(attrs, groups)
    {
      merged := Make(this.attrs.len + |attrs|);
      merged := Append(merged, View(this.attrs));
      for i := 0 to |attrs|
        invariant Sound(merged) && fresh(Cells(merged))
        invariant merged.cap == this.attrs.len + |attrs| && merged.len == this.attrs.len + i
        invariant View(merged) == View(this.attrs) + Tagged(attrs[..i], groups)
      {
        merged := Append(merged, [AttrEntry(attrs[i], groups)]);
        assert Tagged(attrs[..i + 1], groups) == Tagged(attrs[..i], groups) + [AttrEntry(attrs[i], groups)];
      }
      assert attrs[..|attrs|] == attrs;
    }

    /** Adds to a copy of the open group path; an empty name adds nothing. */
    method WithGroup(name: string) returns (child: LogrusHandler)
      requires Valid()
      ensures child.Valid() && (fresh(child) || child == this) && fresh(child.repr - repr)
      ensures child.meaning == Derive1(meaning, Derivation.WithGroup(name))
    {
      if name == "" {
        return this;
      }
      var groups := Append(Slice(null, 0, 0), View(this.groups));
      groups := Append(groups, [name]);
      child := new LogrusHandler(attrs, groups, Derive1(meaning, Derivation.WithGroup(name)), repr + Cells(groups));
    }

    /** The line forwarded to the logger. */
    method Handle(r: Record) returns (line: Line)
      requires Valid()
      ensures line == Emit(meaning, r)
    {
      var fields := new FieldMap();
      for i := 0 to attrs.len
        invariant fresh(fields) && Valid()
        invariant fields.m == Put(map[], LeavesOfEntries(meaning.entries[..i]))
      {
        var e := attrs.arr[i];
        assert Holds(View(attrs)[i], meaning.entries[i], repr);
        AppendAttr(fields, e.attr.key, e.attr.value, e.groups);
        PutNextEntry(map[], meaning.entries, i);
      }
      ghost var bound := LeavesOfEntries(meaning.entries);
      assert meaning.entries[..attrs.len] == meaning.entries;
      for i := 0 to |r.attrs|
        invariant fresh(fields) && Valid()
        invariant fields.m == Put(Put(map[], bound), LeavesOfAll(r.attrs[..i], meaning.groups))
      {
        AppendAttr(fields, r.attrs[i].key, r.attrs[i].value, groups);
        PutNextAttr(Put(map[], bound), r.attrs, i, meaning.groups);
      }
      assert r.attrs[..|r.attrs|] == r.attrs;
      PutConcat(map[], bound, LeavesOfAll(r.attrs, meaning.groups));
      if r.time != 0 {
        fields.m := fields.m[SLOG_TIME := TimeStamp(r.time)];
      }
      fields.m := fields.m[SLOG_LEVEL := LevelName(r.level)];
      line := Line(LevelOf(r.level), r.message, fields.m);
    }
  }

  function Tagged(attrs: seq<Attr>, groups: Slice<string>): (entries: seq<AttrEntry>)
    ensures |entries| == |attrs|
  {
    seq(|attrs|, i requires 0 <= i < |attrs| => AttrEntry(attrs[i], groups))
  }

  /** An entry's arrays are in `repr` and hold what `e` says. */
  ghost predicate Holds(entry: AttrEntry, e: Entry, repr: set<object>)
    reads repr
  {
    && entry.attr == e.attr
    && Sound(entry.groups) && Cells(entry.groups) <= repr && View(entry.groups) == e.groups
  }

  lemma MergedHolds(inherited: seq<AttrEntry>, es: seq<Entry>, attrs: seq<Attr>, groups: Slice<string>,
                    path: seq<string>, repr: set<object>, larger: set<object>)
    requires |inherited| == |es| && repr <= larger
    requires forall i :: 0 <= i < |es| ==> Holds(inherited[i], es[i], repr)
    requires Sound(groups) && Cells(groups) <= repr && View(groups) == path
    ensures var all, means := inherited + Tagged(attrs, groups), es + Bind(attrs, path);
            |all| == |means| && forall i :: 0 <= i < |means| ==> Holds(all[i], means[i], larger)
  {
    assert forall i :: 0 <= i < |es| ==> Holds(inherited[i], es[i], larger);
  }

  method DeriveOne(parent: LogrusHandler, d: Derivation) returns (child: LogrusHandler)
    requires parent.Valid()
    ensures child.Valid() && child.meaning == Derive1(parent.meaning, d)
  {
    match d {
      case WithAttrs(attrs) => child := parent.WithAttrs(attrs);
      case WithGroup(name) => child := parent.WithGroup(name);
    }
  }

  method DeriveAll(parent: LogrusHandler, ds: seq<Derivation>) returns (children: seq<LogrusHandler>)
    requires parent.Valid()
    ensures |children| == |ds|
    ensures forall i :: 0 <= i < |ds| ==> children[i].Valid() && children[i].meaning == Derive1(parent.meaning, ds[i])
    decreases |ds|
  {
    if ds == [] {
      return [];
    }
    var child := DeriveOne(parent, ds[0]);
    var rest := DeriveAll(parent, ds[1..]);
    children := [child] + rest;
    forall i | 0 < i < |ds|
      ensures children[i].Valid() && children[i].meaning == Derive1(parent.meaning, ds[i])
    {
      assert children[i] == rest[i - 1] && ds[i] == ds[1..][i - 1];
    }
  }

  method HandleAll(handlers: seq<LogrusHandler>, r: Record) returns (lines: seq<Line>)
    requires forall i :: 0 <= i < |handlers| ==> handlers[i].Valid()
    ensures |lines| == |handlers|
    ensures forall i :: 0 <= i < |handlers| ==> lines[i] == Emit(handlers[i].meaning, r)
    decreases |handlers|
  {
    if handlers == [] {
      return [];
    }
    var line := handlers[0].Handle(r);
    var rest := HandleAll(handlers[1..], r);
    lines := [line] + rest;
  }

  /** Children derived one after the other from one parent, in any mix, disturb
      neither the parent nor each other: after all of them were made, and after
      each has handled the record, everyone still emits its own line. */
  method Family(parent: LogrusHandler, ds: seq<Derivation>, r: Record) returns (lines: seq<Line>, own: Line)
    requires parent.Valid()
    ensures own == Emit(parent.meaning, r)
    ensures |lines| == |ds|
    ensures forall i :: 0 <= i < |ds| ==> lines[i] == Emit(Derive1(parent.meaning, ds[i]), r)
  {
    var children := DeriveAll(parent, ds);
    lines := HandleAll(children, r);
    own := parent.Handle(r);
  }

  /** A chain of derivations, made for real and then given a record, emits what
      the first handler emits for the nested record. */
  method Chain(h: LogrusHandler, ds: seq<Derivation>, r: Record) returns (line: Line)
    requires h.Valid()
    ensures line == Emit(h.meaning, r.(attrs := Nest(ds, r.attrs)))
  {
    var current := h;
    for i := 0 to |ds|
      invariant current.Valid() && Derive(current.meaning, ds[i..]) == Derive(h.meaning, ds)
    {
      current := DeriveOne(current, ds[i]);
      assert ds[i..][1..] == ds[i + 1..];
    }
    assert ds[|ds|..] == [];
    DerivingIsNesting(h.meaning, ds, r);
    line := current.Handle(r);
  }
}
