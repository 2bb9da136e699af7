/** `_map_names` of latticeconverter/convert.py: a record parsed from a
    foreign format becomes a LatticeJSON record by looking every element
    type and attribute name up in a `FROM_*` table. */
module Reconcile {
  import opened Dicts
  import opened LatticeData

  /** A `FROM_*` table: foreign name to LatticeJSON name. */
  type NameTable = map<string, string>

  /** Lines 82-84: when the type of `name` is itself an element name, the
      type becomes that element's type (one level only), and that element's
      attributes are `update`d into the element's own. */
  function Resolve(raw: Dict<Element>, name: string): (string, Dict<Value>)
    requires name in raw.items
  {
    var e := raw.items[name];
    if e.kind in raw.items then (raw.items[e.kind].kind, e.attrs.Update(raw.items[e.kind].attrs))
    else (e.kind, e.attrs)
  }

  /** The merge keeps the element's own attributes first and in order, adds
      the referenced element's new ones after them, and on a name both carry
      the referenced element's value wins. */
  lemma ResolveMerge(raw: Dict<Element>, name: string)
    requires WellFormed(raw) && name in raw.items
    ensures Resolve(raw, name).1.Valid()
    ensures raw.items[name].kind !in raw.items ==> Resolve(raw, name) == (raw.items[name].kind, raw.items[name].attrs)
    ensures raw.items[name].kind in raw.items ==>
              var own := raw.items[name].attrs;
              var other := raw.items[raw.items[name].kind];
              var r := Resolve(raw, name);
              && r.0 == other.kind
              && own.keys <= r.1.keys
              && r.1.items.Keys == own.items.Keys + other.attrs.items.Keys
              && (forall k :: k in other.attrs.items ==> r.1.items[k] == other.attrs.items[k])
              && (forall k :: k in own.items && k !in other.attrs.items ==> r.1.items[k] == own.items[k])
  {
    var e := raw.items[name];
    if e.kind in raw.items {
      var other := raw.items[e.kind].attrs;
      UpdateKeysItems(e.attrs, other.keys, other.items);
      UpdateKeysOrder(e.attrs, other.keys, other.items);
      assert Elems(other.keys) * other.items.Keys == other.items.Keys;
    }
  }

  /** `["Drift", {"length": attributes.get("L", 0)}]`. */
  function DriftFor(attrs: Dict<Value>): Element {
    Element("Drift", Dict(["length"], map["length" := attrs.Get("L", Num(0.0))]))
  }

  /** The attribute loop of lines 95-100 over the names `ks`: each name the
      table knows is stored under its LatticeJSON name, each other name
      draws a warning. */
  function TranslateAttrs(ks: seq<string>, attrs: map<string, Value>, table: NameTable, name: string): (Dict<Value>, seq<Warning>)
    decreases |ks|
  {
    if ks == [] then (Empty(), [])
    else
      var n := |ks| - 1;
      var prev := TranslateAttrs(ks[..n], attrs, table, name);
      var k := ks[n];
      if k !in attrs then prev
      else if k in table then (prev.0.Put(table[k], attrs[k]), prev.1)
      else (prev.0, prev.1 + [UnknownAttribute(k, name)])
  }

  /** The names of `ks` that the table does not know, in order. */
  function UnknownKeys(ks: seq<string>, table: NameTable): (u: seq<string>)
    ensures forall k :: k in u <==> k in ks && k !in table
  {
    if ks == [] then []
    else UnknownKeys(ks[..|ks| - 1], table) + (if ks[|ks| - 1] in table then [] else [ks[|ks| - 1]])
  }

  /** One unknown-attribute warning for each name of `u`. */
  function AttributeWarnings(u: seq<string>, name: string): seq<Warning> {
    seq(|u|, i requires 0 <= i < |u| => UnknownAttribute(u[i], name))
  }

  /** No later name of `ks` maps to the same LatticeJSON name as `ks[i]`. */
  ghost predicate LastFor(ks: seq<string>, table: NameTable, i: nat)
    requires i < |ks| && ks[i] in table
  {
    forall j :: i < j < |ks| && ks[j] in table ==> table[ks[j]] != table[ks[i]]
  }

  /** The translated attributes form a dict whose names are exactly the
      LatticeJSON names of the known attribute names. */
  lemma {:induction false} TranslateAttrsKeys(ks: seq<string>, attrs: map<string, Value>, table: NameTable, name: string)
    requires forall k :: k in ks ==> k in attrs
    ensures TranslateAttrs(ks, attrs, table, name).0.Valid()
    ensures TranslateAttrs(ks, attrs, table, name).0.items.Keys == set k | k in ks && k in table :: table[k]
    decreases |ks|
  {
    if ks != [] {
      var n := |ks| - 1;
      var pre := ks[..n];
      var k := ks[n];
      assert ks == pre + [k];
      TranslateAttrsKeys(pre, attrs, table, name);
      var prev := TranslateAttrs(pre, attrs, table, name);
      if k in table {
        PutValid(prev.0, table[k], attrs[k]);
        assert (set x | x in ks && x in table :: table[x]) == (set x | x in pre && x in table :: table[x]) + {table[k]};
      } else {
        assert (set x | x in ks && x in table :: table[x]) == (set x | x in pre && x in table :: table[x]);
      }
    }
  }

  /** The LatticeJSON names of the names of `ks` the table knows, in order,
      repeats included. */
  function MappedNames(ks: seq<string>, table: NameTable): seq<string>
    decreases |ks|
  {
    if ks == [] then []
    else
      var n := |ks| - 1;
      MappedNames(ks[..n], table) + (if ks[n] in table then [table[ks[n]]] else [])
  }

  /** The translated attributes are ordered by where their LatticeJSON name
      first arises: a name keeps the place of the first attribute mapped to
      it, even when a later one overwrites its value. */
  lemma {:induction false} TranslateAttrsOrder(ks: seq<string>, attrs: map<string, Value>, table: NameTable, name: string)
    requires forall k :: k in ks ==> k in attrs
    ensures TranslateAttrs(ks, attrs, table, name).0.keys == FirstOccurrences(MappedNames(ks, table))
    ensures TranslateAttrs(ks, attrs, table, name).0.items.Keys == Elems(MappedNames(ks, table))
    decreases |ks|
  {
    if ks != [] {
      var n := |ks| - 1;
      var pre := ks[..n];
      var k := ks[n];
      TranslateAttrsOrder(pre, attrs, table, name);
      var prev := TranslateAttrs(pre, attrs, table, name).0;
      var m := MappedNames(pre, table);
      assert ks == pre + [k];
      if k in table {
        var t := table[k];
        assert TranslateAttrs(ks, attrs, table, name).0 == prev.Put(t, attrs[k]);
        var m' := m + [t];
        assert MappedNames(ks, table) == m';
        assert m'[..|m|] == m && m'[|m|] == t;
        assert FirstOccurrences(m') == FirstOccurrences(m) + (if t in m then [] else [t]);
        assert t in prev.items <==> t in m;
        assert Elems(m') == Elems(m) + {t};
      } else {
        assert TranslateAttrs(ks, attrs, table, name).0 == prev;
        assert MappedNames(ks, table) == m;
      }
    }
  }

  /** The later name wins: a LatticeJSON name holds the value of the last
      known attribute name that maps to it. */
  lemma {:induction false} TranslateAttrsValues(ks: seq<string>, attrs: map<string, Value>, table: NameTable, name: string, i: nat)
    requires forall k :: k in ks ==> k in attrs
    requires i < |ks| && ks[i] in table && LastFor(ks, table, i)
    ensures table[ks[i]] in TranslateAttrs(ks, attrs, table, name).0.items
    ensures TranslateAttrs(ks, attrs, table, name).0.items[table[ks[i]]] == attrs[ks[i]]
    decreases |ks|
  {
    var n := |ks| - 1;
    var pre := ks[..n];
    if i < n {
      assert pre[i] == ks[i];
      assert LastFor(pre, table, i) by {
        forall j | i < j < |pre| && pre[j] in table ensures table[pre[j]] != table[pre[i]] {
          assert pre[j] == ks[j];
        }
      }
      TranslateAttrsValues(pre, attrs, table, name, i);
    }
  }

  /** One warning per unknown attribute name, in order. */
  lemma {:induction false} TranslateAttrsWarnings(ks: seq<string>, attrs: map<string, Value>, table: NameTable, name: string)
    requires forall k :: k in ks ==> k in attrs
    ensures TranslateAttrs(ks, attrs, table, name).1 == AttributeWarnings(UnknownKeys(ks, table), name)
    decreases |ks|
  {
    if ks != [] {
      var n := |ks| - 1;
      TranslateAttrsWarnings(ks[..n], attrs, table, name);
    }
  }

  /** The translation of one element (lines 86-100): an unknown type gives a
      drift of length `L` (or 0) and one warning, and no attribute is looked
      at; a known type gives its LatticeJSON type and the translated
      attributes, with warnings only about this element's attributes. */
  function Translate(name: string, kind: string, attrs: Dict<Value>, table: NameTable): (r: (Element, seq<Warning>))
    ensures kind !in table ==>
              && r.0.kind == "Drift"
              && r.0.attrs == Dict(["length"], map["length" := attrs.Get("L", Num(0.0))])
              && r.1 == [UnknownElementType(name, kind)]
    ensures kind in table ==>
              && r.0.kind == table[kind]
              && (r.0.attrs, r.1) == TranslateAttrs(attrs.keys, attrs.items, table, name)
  {
    if kind !in table then (DriftFor(attrs), [UnknownElementType(name, kind)])
    else
      var t := TranslateAttrs(attrs.keys, attrs.items, table, name);
      (Element(table[kind], t.0), t.1)
  }

  // ---------------------------------------------------------------------------
  // The element loop

  /** The state of the element loop: the parser's elements (their attribute
      dicts are changed by the merge), the elements built so far, and the
      warnings issued so far. */
  datatype Progress = Progress(raw: Dict<Element>, elements: Dict<Element>, warnings: seq<Warning>)

  /** Proof step: the merged attributes are a well-formed dict, and so are the
      parser's elements with them put back. */
  lemma ResolveWellFormed(raw: Dict<Element>, name: string)
    requires WellFormed(raw) && name in raw.items
    ensures Resolve(raw, name).1.Valid()
    ensures raw.items[name].kind in raw.items ==>
              WellFormed(raw.Put(name, Element(raw.items[name].kind, Resolve(raw, name).1)))
  {
    ResolveMerge(raw, name);
    var e := raw.items[name];
    if e.kind in raw.items {
      PutValid(raw, name, Element(e.kind, Resolve(raw, name).1));
    }
  }

  /** One iteration of the element loop. */
  function Step(p: Progress, name: string, table: NameTable): Progress {
    if name !in p.raw.items then p
    else
    var e := p.raw.items[name];
    var (kind, attrs) := Resolve(p.raw, name);
    var raw := if e.kind in p.raw.items then p.raw.Put(name, Element(e.kind, attrs)) else p.raw;
    var (element, warnings) := Translate(name, kind, attrs, table);
    Progress(raw, p.elements.Put(name, element), p.warnings + warnings)
  }

  /** The element loop over the names `ks`, from the parser's elements, no
      element built and no warning. */
  function ReconcileTo(ks: seq<string>, raw: Dict<Element>, table: NameTable): Progress
    decreases |ks|
  {
    if ks == [] then Progress(raw, Empty(), [])
    else Step(ReconcileTo(ks[..|ks| - 1], raw, table), ks[|ks| - 1], table)
  }

  function Last(s: seq<string>): string
    requires |s| > 0
  {
    s[|s| - 1]
  }

  // ---------------------------------------------------------------------------
  // What the element loop produces

  /** `name`'s type names an element whose own type names an element again:
      the merge is then applied to an entry the loop may already have
      changed, and the outcome depends on the order of the elements. */
  ghost predicate Chained(raw: Dict<Element>, name: string) {
    && name in raw.items
    && raw.items[name].kind in raw.items
    && raw.items[raw.items[name].kind].kind in raw.items
  }

  /** The parser's elements after the merge: the same names in the same
      order with the same types, and an element whose type is not an element
      name (it was not merged) is left as it was. */
  ghost predicate Tracks(raw0: Dict<Element>, raw: Dict<Element>) {
    && raw.keys == raw0.keys
    && raw.items.Keys == raw0.items.Keys
    && forall n :: n in raw0.items ==>
         && raw.items[n].kind == raw0.items[n].kind
         && (raw0.items[n].kind !in raw0.items ==> raw.items[n] == raw0.items[n])
  }

  /** The loop over `ks` changes only entries of `ks`, and only as `Tracks`
      allows. */
  lemma {:induction false} ReconcileRaw(ks: seq<string>, raw0: Dict<Element>, table: NameTable)
    ensures Tracks(raw0, ReconcileTo(ks, raw0, table).raw)
    ensures forall n :: n in raw0.items && n !in ks ==> ReconcileTo(ks, raw0, table).raw.items[n] == raw0.items[n]
    decreases |ks|
  {
    if ks != [] {
      var pre := ks[..|ks| - 1];
      assert forall n :: n in pre ==> n in ks;
      ReconcileRaw(pre, raw0, table);
    }
  }

  /** The built elements are the names of `ks`, in order, as a dict. */
  lemma {:induction false} ReconcileKeys(ks: seq<string>, raw0: Dict<Element>, table: NameTable)
    requires Distinct(ks) && forall k :: k in ks ==> k in raw0.items
    ensures ReconcileTo(ks, raw0, table).elements.Valid()
    ensures ReconcileTo(ks, raw0, table).elements.keys == ks
    decreases |ks|
  {
    if ks != [] {
      var n := |ks| - 1;
      var pre := ks[..n];
      assert ks == pre + [ks[n]];
      assert Distinct(pre) && ks[n] !in pre;
      ReconcileKeys(pre, raw0, table);
      ReconcileRaw(pre, raw0, table);
      PutValid(ReconcileTo(pre, raw0, table).elements, ks[n], ReconcileTo(ks, raw0, table).elements.items[ks[n]]);
    }
  }

  /** The attributes `ks[i]` ends the element loop with: its own, with the
      attributes of the element its type names merged in. That element's
      attributes are the ones the loop left it with (`after`) when the loop
      came to it first, and its parsed ones otherwise; the two differ only
      when that element is itself an alias (`Chained`). */
  ghost function MergedAttrs(raw0: Dict<Element>, after: Dict<Element>, ks: seq<string>, i: nat): Dict<Value>
    requires i < |ks| && ks[i] in raw0.items
  {
    var e := raw0.items[ks[i]];
    if e.kind !in raw0.items then e.attrs
    else if e.kind in ks[..i] && e.kind in after.items then e.attrs.Update(after.items[e.kind].attrs)
    else e.attrs.Update(raw0.items[e.kind].attrs)
  }

  /** What `ReconcileValues` states of the element `ks[i]`. */
  ghost predicate MergedAt(ks: seq<string>, raw0: Dict<Element>, table: NameTable, R: Progress, i: nat)
    requires i < |ks| && ks[i] in raw0.items
  {
    && ks[i] in R.elements.items
    && R.elements.items[ks[i]] == Translate(ks[i], Resolve(raw0, ks[i]).0, MergedAttrs(raw0, R.raw, ks, i), table).0
    && (raw0.items[ks[i]].kind in raw0.items ==>
          ks[i] in R.raw.items && R.raw.items[ks[i]].attrs == MergedAttrs(raw0, R.raw, ks, i))
  }

  /** Every element is the translation of its resolved type and of its
      merged attributes, where an alias of an alias sees its target as the
      loop left it; an alias is left in the parser's elements with its
      merged attributes. */
  lemma {:induction false} ReconcileValues(ks: seq<string>, raw0: Dict<Element>, table: NameTable)
    requires WellFormed(raw0) && Distinct(ks) && forall k :: k in ks ==> k in raw0.items
    ensures forall i :: 0 <= i < |ks| ==> MergedAt(ks, raw0, table, ReconcileTo(ks, raw0, table), i)
    decreases |ks|
  {
    if ks != [] {
      var n := |ks| - 1;
      var pre := ks[..n];
      assert ks == pre + [ks[n]];
      assert Distinct(pre) && ks[n] !in pre;
      ReconcileValues(pre, raw0, table);
      forall i | 0 <= i < n ensures MergedAt(ks, raw0, table, ReconcileTo(ks, raw0, table), i) {
        MergedKept(ks, raw0, table, i);
      }
      MergedLast(ks, raw0, table);
    }
  }

  /** Proof step: the last turn of the loop leaves what earlier turns built as
      it was. */
  lemma MergedKept(ks: seq<string>, raw0: Dict<Element>, table: NameTable, i: nat)
    requires WellFormed(raw0) && Distinct(ks) && forall k :: k in ks ==> k in raw0.items
    requires i < |ks| - 1
    requires MergedAt(ks[..|ks| - 1], raw0, table, ReconcileTo(ks[..|ks| - 1], raw0, table), i)
    ensures MergedAt(ks, raw0, table, ReconcileTo(ks, raw0, table), i)
  {
    var n := |ks| - 1;
    var pre := ks[..n];
    var k := ks[n];
    var p := ReconcileTo(pre, raw0, table);
    var R := ReconcileTo(ks, raw0, table);
    assert R == Step(p, k, table);
    assert pre[i] == ks[i] && pre[..i] == ks[..i] && ks[i] != k;
    assert k in p.raw.items ==> R.raw.items.Keys == p.raw.items.Keys;
    MergedAttrsKept(ks, raw0, table, i);
  }

  /** Proof step: the last turn of the loop does not change the merged
      attributes of an earlier element. */
  lemma MergedAttrsKept(ks: seq<string>, raw0: Dict<Element>, table: NameTable, i: nat)
    requires Distinct(ks) && forall k :: k in ks ==> k in raw0.items
    requires i < |ks| - 1
    ensures MergedAttrs(raw0, ReconcileTo(ks[..|ks| - 1], raw0, table).raw, ks[..|ks| - 1], i)
            == MergedAttrs(raw0, ReconcileTo(ks, raw0, table).raw, ks, i)
  {
    var n := |ks| - 1;
    var pre := ks[..n];
    var k := ks[n];
    var p := ReconcileTo(pre, raw0, table);
    var R := ReconcileTo(ks, raw0, table);
    assert R == Step(p, k, table);
    assert pre[i] == ks[i] && pre[..i] == ks[..i] && ks[i] != k;
    assert k in p.raw.items ==> R.raw.items.Keys == p.raw.items.Keys;
    var t := raw0.items[ks[i]].kind;
    if t in ks[..i] {
      assert t in pre && t != k;
    }
  }

  /** Proof step: the last turn of the loop builds its element from the target
      as the earlier turns left it. */
  lemma MergedLast(ks: seq<string>, raw0: Dict<Element>, table: NameTable)
    requires WellFormed(raw0) && Distinct(ks) && forall k :: k in ks ==> k in raw0.items
    requires |ks| > 0
    ensures MergedAt(ks, raw0, table, ReconcileTo(ks, raw0, table), |ks| - 1)
  {
    var n := |ks| - 1;
    var pre := ks[..n];
    var k := ks[n];
    assert ks == pre + [k];
    assert k !in pre;
    ReconcileRaw(pre, raw0, table);
    var p := ReconcileTo(pre, raw0, table);
    var R := ReconcileTo(ks, raw0, table);
    assert R == Step(p, k, table);
    ResolvedLast(ks, raw0, table);
  }

  /** Proof step: the last turn of the loop resolves its element to the
      resolved type and the merged attributes. */
  lemma ResolvedLast(ks: seq<string>, raw0: Dict<Element>, table: NameTable)
    requires Distinct(ks) && forall k :: k in ks ==> k in raw0.items
    requires |ks| > 0
    ensures Last(ks) in ReconcileTo(ks[..|ks| - 1], raw0, table).raw.items
    ensures Resolve(ReconcileTo(ks[..|ks| - 1], raw0, table).raw, Last(ks))
            == (Resolve(raw0, Last(ks)).0, MergedAttrs(raw0, ReconcileTo(ks, raw0, table).raw, ks, |ks| - 1))
  {
    var n := |ks| - 1;
    var pre := ks[..n];
    var k := ks[n];
    assert ks == pre + [k];
    assert k !in pre;
    ReconcileRaw(pre, raw0, table);
    var p := ReconcileTo(pre, raw0, table);
    var R := ReconcileTo(ks, raw0, table);
    assert R == Step(p, k, table);
    assert p.raw.items[k] == raw0.items[k];
    var t := raw0.items[k].kind;
    if t in raw0.items {
      if t in pre {
        assert t != k && R.raw.items[t] == p.raw.items[t];
      } else {
        assert p.raw.items[t] == raw0.items[t];
      }
    }
  }

  /** The warnings the element loop issues for the first `n` names of `ks`:
      each element's own, as `Translate` states them, in the order of `ks`. */
  ghost function IssuedWarnings(ks: seq<string>, raw0: Dict<Element>, after: Dict<Element>, table: NameTable, n: nat): seq<Warning>
    requires n <= |ks| && forall k :: k in ks ==> k in raw0.items
    decreases n
  {
    if n == 0 then []
    else
      var k := ks[n - 1];
      IssuedWarnings(ks, raw0, after, table, n - 1) + Translate(k, Resolve(raw0, k).0, MergedAttrs(raw0, after, ks, n - 1), table).1
  }

  /** Proof step: the last turn of the loop leaves the earlier elements'
      warnings as they were. */
  lemma {:induction false} IssuedKept(ks: seq<string>, raw0: Dict<Element>, table: NameTable, m: nat)
    requires Distinct(ks) && forall k :: k in ks ==> k in raw0.items
    requires m < |ks|
    ensures IssuedWarnings(ks[..|ks| - 1], raw0, ReconcileTo(ks[..|ks| - 1], raw0, table).raw, table, m)
            == IssuedWarnings(ks, raw0, ReconcileTo(ks, raw0, table).raw, table, m)
    decreases m
  {
    if m > 0 {
      var pre := ks[..|ks| - 1];
      var before := ReconcileTo(pre, raw0, table).raw;
      var after := ReconcileTo(ks, raw0, table).raw;
      var k := ks[m - 1];
      assert pre[m - 1] == k;
      IssuedKept(ks, raw0, table, m - 1);
      MergedAttrsKept(ks, raw0, table, m - 1);
      assert IssuedWarnings(pre, raw0, before, table, m)
             == IssuedWarnings(pre, raw0, before, table, m - 1) + Translate(k, Resolve(raw0, k).0, MergedAttrs(raw0, before, pre, m - 1), table).1;
    }
  }

  /** The warnings of the element loop are those of every element in turn:
      an unknown type's, or the unknown attributes' of its merged
      attributes. */
  lemma {:induction false} ReconcileWarnings(ks: seq<string>, raw0: Dict<Element>, table: NameTable)
    requires Distinct(ks) && forall k :: k in ks ==> k in raw0.items
    ensures ReconcileTo(ks, raw0, table).warnings == IssuedWarnings(ks, raw0, ReconcileTo(ks, raw0, table).raw, table, |ks|)
    decreases |ks|
  {
    if ks != [] {
      var n := |ks| - 1;
      var pre := ks[..n];
      assert Distinct(pre) && forall k :: k in pre ==> k in ks;
      ReconcileWarnings(pre, raw0, table);
      IssuedKept(ks, raw0, table, n);
      WarningsLast(ks, raw0, table);
      var R := ReconcileTo(ks, raw0, table);
      assert IssuedWarnings(ks, raw0, R.raw, table, |ks|)
             == IssuedWarnings(ks, raw0, R.raw, table, n) + Translate(ks[n], Resolve(raw0, ks[n]).0, MergedAttrs(raw0, R.raw, ks, n), table).1;
    }
  }

  /** Proof step: the last turn of the loop adds the warnings of its own
      element. */
  lemma WarningsLast(ks: seq<string>, raw0: Dict<Element>, table: NameTable)
    requires Distinct(ks) && forall k :: k in ks ==> k in raw0.items
    requires |ks| > 0
    ensures ReconcileTo(ks, raw0, table).warnings
            == ReconcileTo(ks[..|ks| - 1], raw0, table).warnings
               + Translate(Last(ks), Resolve(raw0, Last(ks)).0, MergedAttrs(raw0, ReconcileTo(ks, raw0, table).raw, ks, |ks| - 1), table).1
  {
    ResolvedLast(ks, raw0, table);
    var p := ReconcileTo(ks[..|ks| - 1], raw0, table);
    assert ReconcileTo(ks, raw0, table) == Step(p, Last(ks), table);
  }

  /** An element outside a chain of aliases is the translation of its type
      and attributes resolved against the parser's elements. */
  lemma ReconcileUnchained(ks: seq<string>, raw0: Dict<Element>, table: NameTable)
    requires WellFormed(raw0) && Distinct(ks) && forall k :: k in ks ==> k in raw0.items
    ensures forall n :: n in ks && !Chained(raw0, n) ==>
              && n in ReconcileTo(ks, raw0, table).elements.items
              && ReconcileTo(ks, raw0, table).elements.items[n] == Translate(n, Resolve(raw0, n).0, Resolve(raw0, n).1, table).0
  {
    ReconcileValues(ks, raw0, table);
    ReconcileRaw(ks, raw0, table);
    var R := ReconcileTo(ks, raw0, table);
    forall n | n in ks && !Chained(raw0, n)
      ensures n in R.elements.items
      ensures R.elements.items[n] == Translate(n, Resolve(raw0, n).0, Resolve(raw0, n).1, table).0
    {
      var i :| 0 <= i < |ks| && ks[i] == n;
      assert MergedAt(ks, raw0, table, R, i);
      var t := raw0.items[n].kind;
      if t in raw0.items {
        assert raw0.items[t].kind !in raw0.items;
        assert t in R.raw.items ==> R.raw.items[t] == raw0.items[t];
      }
      assert MergedAttrs(raw0, R.raw, ks, i) == Resolve(raw0, n).1;
    }
  }

  /** Every built element has type `Drift` or a LatticeJSON type of the
      table. */
  lemma {:induction false} ReconcileKinds(ks: seq<string>, raw0: Dict<Element>, table: NameTable)
    ensures forall n :: n in ReconcileTo(ks, raw0, table).elements.items ==>
              var kind := ReconcileTo(ks, raw0, table).elements.items[n].kind;
              kind == "Drift" || kind in table.Values
    decreases |ks|
  {
    if ks != [] {
      ReconcileKinds(ks[..|ks| - 1], raw0, table);
    }
  }

  /** `_map_names(lattice_data, name_map)`: the result or the exception, the
      warnings, and the parser's elements as the merge left them. The
      default root is computed even when a root is given, so an empty
      `lattices` raises `IndexError` after the element loop. */
  function MapNamesSpec(raw: RawRecord, table: NameTable): (r: (Result<LatticeJson>, seq<Warning>, Dict<Element>))
    ensures r.0.Err? <==> |raw.lattices.keys| == 0
    ensures r.0.Err? ==> r.0.error == IndexError
    ensures r.0.Ok? ==>
              && r.0.value.lattices == raw.lattices
              && r.0.value.root == (if raw.root.Some? then raw.root.value else Last(raw.lattices.keys))
              && r.0.value.title == (if raw.title.Some? then raw.title.value else "")
  {
    var p := ReconcileTo(raw.elements.keys, raw.elements, table);
    if |raw.lattices.keys| == 0 then (Err(IndexError), p.warnings, p.raw)
    else
      var root := if raw.root.Some? then raw.root.value else Last(raw.lattices.keys);
      var title := if raw.title.Some? then raw.title.value else "";
      (Ok(LatticeJson(title, root, p.elements, raw.lattices)), p.warnings, p.raw)
  }

  /** On success the LatticeJSON elements are the parser's element names in
      the parser's order; each one is the translation of its resolved type
      and merged attributes (for one not in a chain of aliases, simply of its
      type and attributes resolved against the parser's elements); each type
      is `Drift` or a LatticeJSON type; and the parser's elements keep their
      names, order and types, each alias holding its merged attributes. */
  lemma MapNamesElements(raw: RawRecord, table: NameTable)
    requires WellFormed(raw.elements)
    ensures var (r, ws, after) := MapNamesSpec(raw, table);
            && Tracks(raw.elements, after)
            && ws == IssuedWarnings(raw.elements.keys, raw.elements, after, table, |raw.elements.keys|)
            && (r.Ok? ==>
                 forall i :: 0 <= i < |raw.elements.keys| ==>
                   MergedAt(raw.elements.keys, raw.elements, table, Progress(after, r.value.elements, ws), i))
            && (r.Ok? ==>
                 && r.value.elements.Valid()
                 && r.value.elements.keys == raw.elements.keys
                 && (forall n :: n in raw.elements.items && !Chained(raw.elements, n) ==>
                       r.value.elements.items[n] == Translate(n, Resolve(raw.elements, n).0, Resolve(raw.elements, n).1, table).0)
                 && (forall n :: n in r.value.elements.items ==>
                       r.value.elements.items[n].kind == "Drift" || r.value.elements.items[n].kind in table.Values))
  {
    var ks := raw.elements.keys;
    ReconcileRaw(ks, raw.elements, table);
    ReconcileKeys(ks, raw.elements, table);
    ReconcileValues(ks, raw.elements, table);
    ReconcileUnchained(ks, raw.elements, table);
    ReconcileKinds(ks, raw.elements, table);
    ReconcileWarnings(ks, raw.elements, table);
  }

  /** The attribute loop of lines 95-100. */
  method TranslateAttributes(name: string, attrs: Dict<Value>, table: NameTable)
    returns (attributes: Dict<Value>, warnings: seq<Warning>)
    requires attrs.Valid()
    ensures (attributes, warnings) == TranslateAttrs(attrs.keys, attrs.items, table, name)
  {
    attributes := Empty();
    warnings := [];
    var keys := attrs.keys;
    var j := 0;
    while j < |keys|
      invariant 0 <= j <= |keys|
      invariant TranslateAttrs(keys[..j], attrs.items, table, name) == (attributes, warnings)
    {
      assert keys[..j + 1][..j] == keys[..j];
      var otherKey := keys[j];
      if otherKey in table {
        attributes := attributes.Put(table[otherKey], attrs.items[otherKey]);
      } else {
        warnings := warnings + [UnknownAttribute(otherKey, name)];
      }
      j := j + 1;
    }
    assert keys[..j] == keys;
  }

  /** One iteration of the element loop of lines 80-100: the element
      `names[i]`, after the elements before it. */
  method MapElement(rawElements: Dict<Element>, elements: Dict<Element>, warnings: seq<Warning>,
                    names: seq<string>, i: nat, ghost raw0: Dict<Element>, table: NameTable)
    returns (rawElements': Dict<Element>, elements': Dict<Element>, warnings': seq<Warning>)
    requires i < |names| && WellFormed(rawElements) && names[i] in rawElements.items
    requires forall k :: k in names ==> k in raw0.items
    requires Progress(rawElements, elements, warnings) == ReconcileTo(names[..i], raw0, table)
    ensures Progress(rawElements', elements', warnings') == ReconcileTo(names[..i + 1], raw0, table)
    ensures WellFormed(rawElements') && rawElements'.items.Keys == rawElements.items.Keys
  {
    var name := names[i];
    assert names[..i + 1][..i] == names[..i];
    ResolveWellFormed(rawElements, name);
    rawElements' := rawElements;
    var otherType := rawElements.items[name].kind;
    var otherAttributes := rawElements.items[name].attrs;
    if otherType in rawElements.items {
      var additional := rawElements.items[otherType];
      otherType := additional.kind;
      otherAttributes := otherAttributes.Update(additional.attrs);
      rawElements' := rawElements.Put(name, Element(rawElements.items[name].kind, otherAttributes));
    }
    assert (otherType, otherAttributes) == Resolve(rawElements, name);
    var element, newWarnings;
    if otherType !in table {
      element := DriftFor(otherAttributes);
      newWarnings := [UnknownElementType(name, otherType)];
    } else {
      var attributes;
      attributes, newWarnings := TranslateAttributes(name, otherAttributes, table);
      element := Element(table[otherType], attributes);
    }
    assert (element, newWarnings) == Translate(name, otherType, otherAttributes, table);
    elements' := elements.Put(name, element);
    warnings' := warnings + newWarnings;
    assert Progress(rawElements', elements', warnings') == Step(Progress(rawElements, elements, warnings), name, table);
  }

  /** `_map_names(lattice_data, name_map)`: the element loop, then the
      defaults. */
  method MapNames(raw: RawRecord, table: NameTable)
    returns (r: Result<LatticeJson>, warnings: seq<Warning>, rawElements: Dict<Element>)
    requires WellFormed(raw.elements)
    ensures (r, warnings, rawElements) == MapNamesSpec(raw, table)
  {
    rawElements := raw.elements;
    var elements := Empty();
    warnings := [];
    var names := raw.elements.keys;
    var i := 0;
    while i < |names|
      invariant 0 <= i <= |names|
      invariant Progress(rawElements, elements, warnings) == ReconcileTo(names[..i], raw.elements, table)
      invariant WellFormed(rawElements) && rawElements.items.Keys == raw.elements.items.Keys
    {
      rawElements, elements, warnings := MapElement(rawElements, elements, warnings, names, i, raw.elements, table);
      i := i + 1;
    }
    assert names[..i] == names;
    if |raw.lattices.keys| == 0 {
      return Err(IndexError), warnings, rawElements;
    }
    var root := if raw.root.Some? then raw.root.value else Last(raw.lattices.keys);
    var title := if raw.title.Some? then raw.title.value else "";
    r := Ok(LatticeJson(title, root, elements, raw.lattices));
  }
}
