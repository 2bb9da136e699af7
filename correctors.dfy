/** `map_to_corrector` and `map_from_corrector` of latticeconverter/utils.py:
    horizontal and vertical steerers become one `Steerer` type that carries
    its plane in `kick_plane`, and back. */
module Correctors {
  import opened Dicts
  import opened LatticeData

  const Zero: Value := Num(0.0)

  /** The attributes the corrector mapping rewrites. */
  const Kicks: set<string> := {"kick_plane", "hkick", "vkick"}

  predicate IsSteerer(kind: string) {
    kind == "HorizontalSteerer" || kind == "VerticalSteerer" || kind == "Steerer"
  }

  /** The `kick_plane` a steerer type gets. */
  function PlaneOf(kind: string): string {
    if kind == "HorizontalSteerer" then "h" else if kind == "VerticalSteerer" then "v" else "hv"
  }

  /** The `hkick` after `map_to_corrector`: the element's own, or 0 when it is
      missing or the steerer is vertical. */
  function HKick(e: Element): Value {
    if e.kind == "VerticalSteerer" then Zero else e.attrs.Get("hkick", Zero)
  }

  function VKick(e: Element): Value {
    if e.kind == "HorizontalSteerer" then Zero else e.attrs.Get("vkick", Zero)
  }

  /** The key `d[k] = v` appends to a dict whose entries are `m`: `k`
      itself when it is new, nothing when it is already there. */
  function NewKey(k: string, m: map<string, Value>): seq<string> {
    if k in m then [] else [k]
  }

  /** The body of the `map_to_corrector` loop for one element. The popped
      kick leaves its place, and `update` appends `kick_plane`, `hkick` and
      `vkick` after the remaining keys, each one only when it is new. */
  function ToCorrector(e: Element): (r: Element)
    ensures !IsSteerer(e.kind) ==> r == e
    ensures IsSteerer(e.kind) ==>
              && r.kind == "Steerer"
              && r.attrs.items == (e.attrs.items - {"hkick", "vkick"})
                                    ["kick_plane" := Str(PlaneOf(e.kind))]["hkick" := HKick(e)]["vkick" := VKick(e)]
    ensures e.kind == "HorizontalSteerer" ==>
              r.attrs.keys == Without(e.attrs.keys, "hkick") + NewKey("kick_plane", e.attrs.items) + ["hkick"] + NewKey("vkick", e.attrs.items)
    ensures e.kind == "VerticalSteerer" ==>
              r.attrs.keys == Without(e.attrs.keys, "vkick") + NewKey("kick_plane", e.attrs.items) + NewKey("hkick", e.attrs.items) + ["vkick"]
    ensures e.kind == "Steerer" ==>
              r.attrs.keys == Without(Without(e.attrs.keys, "hkick"), "vkick") + NewKey("kick_plane", e.attrs.items) + ["hkick", "vkick"]
  {
    if e.kind == "HorizontalSteerer" then
      var hkick := e.attrs.Get("hkick", Zero);
      KickItems(e.attrs.items - {"hkick"}, e.attrs.items, Str("h"), hkick, Zero);
      var a := e.attrs.Pop("hkick");
      var b := a.Put("kick_plane", Str("h"));
      assert b.keys == a.keys + NewKey("kick_plane", e.attrs.items);
      assert "vkick" in b.Put("hkick", hkick).items <==> "vkick" in e.attrs.items;
      Element("Steerer", b.Put("hkick", hkick).Put("vkick", Zero))
    else if e.kind == "VerticalSteerer" then
      var vkick := e.attrs.Get("vkick", Zero);
      KickItems(e.attrs.items - {"vkick"}, e.attrs.items, Str("v"), Zero, vkick);
      var a := e.attrs.Pop("vkick");
      var b := a.Put("kick_plane", Str("v"));
      assert b.keys == a.keys + NewKey("kick_plane", e.attrs.items);
      assert b.Put("hkick", Zero).keys == b.keys + NewKey("hkick", e.attrs.items);
      Element("Steerer", b.Put("hkick", Zero).Put("vkick", vkick))
    else if e.kind == "Steerer" then
      var hkick := e.attrs.Get("hkick", Zero);
      var vkick := e.attrs.Pop("hkick").Get("vkick", Zero);
      KickItems(e.attrs.items - {"hkick"} - {"vkick"}, e.attrs.items, Str("hv"), hkick, vkick);
      var a := e.attrs.Pop("hkick").Pop("vkick");
      var b := a.Put("kick_plane", Str("hv"));
      assert b.keys == a.keys + NewKey("kick_plane", e.attrs.items);
      Element("Steerer", b.Put("hkick", hkick).Put("vkick", vkick))
    else
      e
  }

  /** Proof step: taking out one or both kicks before setting all three gives
      the same map. */
  lemma KickItems(m: map<string, Value>, items: map<string, Value>, plane: Value, h: Value, v: Value)
    requires m.Keys - {"hkick", "vkick"} == items.Keys - {"hkick", "vkick"}
    requires forall k :: k in m && k != "hkick" && k != "vkick" ==> k in items && m[k] == items[k]
    ensures m["kick_plane" := plane]["hkick" := h]["vkick" := v]
            == (items - {"hkick", "vkick"})["kick_plane" := plane]["hkick" := h]["vkick" := v]
  {
  }

  /** The rewritten attributes are still a well-formed dict. */
  lemma ToCorrectorValid(e: Element)
    requires e.attrs.Valid()
    ensures ToCorrector(e).attrs.Valid()
  {
    if IsSteerer(e.kind) {
      var a := if e.kind == "HorizontalSteerer" then e.attrs.Pop("hkick")
               else if e.kind == "VerticalSteerer" then e.attrs.Pop("vkick")
               else e.attrs.Pop("hkick").Pop("vkick");
      PopValid(e.attrs, "hkick");
      PopValid(e.attrs, "vkick");
      if e.kind == "Steerer" {
        PopValid(e.attrs.Pop("hkick"), "vkick");
      }
      PutValid(a, "kick_plane", Str(PlaneOf(e.kind)));
      var b := a.Put("kick_plane", Str(PlaneOf(e.kind)));
      PutValid(b, "hkick", HKick(e));
      PutValid(b.Put("hkick", HKick(e)), "vkick", VKick(e));
    }
  }

  /** The body of the `map_from_corrector` loop for one element: the
      rewritten element, and the `KeyError` that stopped it half-way, if
      any (the changes made before it stay). The popped keys leave their
      places, and `kick` goes after the remaining keys when it is new. */
  function FromCorrector(e: Element): (r: (Element, Option<Error>))
    ensures e.kind != "Steerer" ==> r == (e, None)
    ensures e.kind == "Steerer" && "kick_plane" !in e.attrs.items ==> r == (e, Some(KeyError("kick_plane")))
    ensures e.kind == "Steerer" && "kick_plane" in e.attrs.items ==>
              && "kick_plane" !in r.0.attrs.items
              && var plane := e.attrs.items["kick_plane"];
              && (plane == Str("h") ==>
                    if "hkick" in e.attrs.items && "vkick" in e.attrs.items then
                      r.1 == None && r.0.kind == "HorizontalSteerer"
                      && r.0.attrs.items == (e.attrs.items - Kicks)["kick" := e.attrs.items["hkick"]]
                    else
                      && r.0.kind == "HorizontalSteerer"
                      && r.1 == Some(KeyError(if "hkick" !in e.attrs.items then "hkick" else "vkick"))
                      && r.0.attrs.items == e.attrs.items - (if "hkick" !in e.attrs.items then {"kick_plane"} else {"kick_plane", "hkick"}))
              && (plane == Str("v") ==>
                    if "hkick" in e.attrs.items && "vkick" in e.attrs.items then
                      r.1 == None && r.0.kind == "VerticalSteerer"
                      && r.0.attrs.items == (e.attrs.items - Kicks)["kick" := e.attrs.items["vkick"]]
                    else
                      && r.0.kind == "VerticalSteerer"
                      && r.1 == Some(KeyError(if "vkick" !in e.attrs.items then "vkick" else "hkick"))
                      && r.0.attrs.items == e.attrs.items - (if "vkick" !in e.attrs.items then {"kick_plane"} else {"kick_plane", "vkick"}))
              && (plane != Str("h") && plane != Str("v") ==> r == (Element("Steerer", e.attrs.Pop("kick_plane")), None))
    ensures e.kind == "Steerer" && "kick_plane" in e.attrs.items ==>
              var plane := e.attrs.items["kick_plane"];
              var a := Without(e.attrs.keys, "kick_plane");
              && (plane == Str("h") ==>
                    r.0.attrs.keys == if "hkick" !in e.attrs.items then a
                                      else if "vkick" !in e.attrs.items then Without(a, "hkick")
                                      else Without(Without(a, "hkick"), "vkick") + NewKey("kick", e.attrs.items))
              && (plane == Str("v") ==>
                    r.0.attrs.keys == if "vkick" !in e.attrs.items then a
                                      else if "hkick" !in e.attrs.items then Without(a, "vkick")
                                      else Without(Without(a, "vkick"), "hkick") + NewKey("kick", e.attrs.items))
  {
    if e.kind != "Steerer" then (e, None)
    else if "kick_plane" !in e.attrs.items then (e, Some(KeyError("kick_plane")))
    else
      var plane := e.attrs.items["kick_plane"];
      var a := e.attrs.Pop("kick_plane");
      if plane == Str("h") then FromPlane(a, "HorizontalSteerer", "hkick", "vkick")
      else if plane == Str("v") then FromPlane(a, "VerticalSteerer", "vkick", "hkick")
      else
        (Element("Steerer", a), None)
  }

  /** One plane branch of the `map_from_corrector` loop, after `kick_plane`
      is popped into `a`: the type is set, the in-plane kick `own` and then
      the `other` kick are popped, each a `KeyError` when missing, and the
      in-plane kick comes back as `kick`. */
  function FromPlane(a: Dict<Value>, kind: string, own: string, other: string): (r: (Element, Option<Error>))
    requires own != other && own != "kick" && other != "kick"
    ensures r.0.kind == kind
    ensures own !in a.items ==> r == (Element(kind, a), Some(KeyError(own)))
    ensures own in a.items && other !in a.items ==> r == (Element(kind, a.Pop(own)), Some(KeyError(other)))
    ensures own in a.items && other in a.items ==>
              && r.1 == None
              && r.0.attrs.items == (a.items - {own, other})["kick" := a.items[own]]
              && r.0.attrs.keys == Without(Without(a.keys, own), other) + NewKey("kick", a.items)
  {
    if own !in a.items then (Element(kind, a), Some(KeyError(own)))
    else
      var kick := a.items[own];
      var b := a.Pop(own);
      if other !in b.items then (Element(kind, b), Some(KeyError(other)))
      else
        var c := b.Pop(other);
        assert c.items == a.items - {own, other};
        (Element(kind, c.Put("kick", kick)), None)
  }

  /** `map_from_corrector` after `map_to_corrector` on one element never
      raises and gives back the element's type. A horizontal or vertical
      steerer ends with one `kick`, its own in-plane kick or 0, and loses any
      other kick attribute it had; a `Steerer` keeps both kicks, 0 where
      missing, and loses `kick_plane`. */
  lemma HorizontalRoundTrip(e: Element)
    requires e.kind == "HorizontalSteerer"
    ensures FromCorrector(ToCorrector(e)).1 == None
    ensures FromCorrector(ToCorrector(e)).0.kind == e.kind
    ensures FromCorrector(ToCorrector(e)).0.attrs.items == (e.attrs.items - Kicks)["kick" := e.attrs.Get("hkick", Zero)]
  {
    var t := ToCorrector(e);
    assert t.attrs.items["kick_plane"] == Str("h");
    assert "hkick" in t.attrs.items && "vkick" in t.attrs.items;
    var r := FromCorrector(t).0;
    assert r.attrs.items == (t.attrs.items - Kicks)["kick" := HKick(e)];
    assert t.attrs.items - Kicks == e.attrs.items - Kicks;
  }

  lemma VerticalRoundTrip(e: Element)
    requires e.kind == "VerticalSteerer"
    ensures FromCorrector(ToCorrector(e)).1 == None
    ensures FromCorrector(ToCorrector(e)).0.kind == e.kind
    ensures FromCorrector(ToCorrector(e)).0.attrs.items == (e.attrs.items - Kicks)["kick" := e.attrs.Get("vkick", Zero)]
  {
    var t := ToCorrector(e);
    assert t.attrs.items["kick_plane"] == Str("v");
    assert "hkick" in t.attrs.items && "vkick" in t.attrs.items;
    var r := FromCorrector(t).0;
    assert r.attrs.items == (t.attrs.items - Kicks)["kick" := VKick(e)];
    assert t.attrs.items - Kicks == e.attrs.items - Kicks;
  }

  lemma SteererRoundTrip(e: Element)
    requires e.kind == "Steerer"
    ensures FromCorrector(ToCorrector(e)).1 == None
    ensures FromCorrector(ToCorrector(e)).0.kind == e.kind
    ensures FromCorrector(ToCorrector(e)).0.attrs.items
              == (e.attrs.items - {"kick_plane"})["hkick" := e.attrs.Get("hkick", Zero)]["vkick" := e.attrs.Get("vkick", Zero)]
  {
    var t := ToCorrector(e);
    assert t.attrs.items["kick_plane"] == Str("hv");
    assert Str("hv") != Str("h") && Str("hv") != Str("v");
    assert FromCorrector(t) == (Element("Steerer", t.attrs.Pop("kick_plane")), None);
    DropPlane(e.attrs.items, Str("hv"), HKick(e), VKick(e));
  }

  /** Proof step: setting `kick_plane` and both kicks, then taking `kick_plane`
      out again. */
  lemma DropPlane(items: map<string, Value>, plane: Value, h: Value, v: Value)
    ensures (items - {"hkick", "vkick"})["kick_plane" := plane]["hkick" := h]["vkick" := v] - {"kick_plane"}
            == (items - {"kick_plane"})["hkick" := h]["vkick" := v]
  {
  }

  /** `map_from_corrector` after `map_to_corrector` on one element of any type:
      nothing raises, the type comes back, and the attributes are as the three
      lemmas above state; any other element comes back unchanged. */
  lemma CorrectorRoundTrip(e: Element)
    ensures FromCorrector(ToCorrector(e)).1 == None
    ensures FromCorrector(ToCorrector(e)).0.kind == e.kind
    ensures e.kind == "HorizontalSteerer" ==>
              FromCorrector(ToCorrector(e)).0.attrs.items == (e.attrs.items - Kicks)["kick" := e.attrs.Get("hkick", Zero)]
    ensures e.kind == "VerticalSteerer" ==>
              FromCorrector(ToCorrector(e)).0.attrs.items == (e.attrs.items - Kicks)["kick" := e.attrs.Get("vkick", Zero)]
    ensures e.kind == "Steerer" ==>
              FromCorrector(ToCorrector(e)).0.attrs.items
                == (e.attrs.items - {"kick_plane"})["hkick" := e.attrs.Get("hkick", Zero)]["vkick" := e.attrs.Get("vkick", Zero)]
    ensures !IsSteerer(e.kind) ==> FromCorrector(ToCorrector(e)).0 == e
  {
    if e.kind == "HorizontalSteerer" {
      HorizontalRoundTrip(e);
    } else if e.kind == "VerticalSteerer" {
      VerticalRoundTrip(e);
    } else if e.kind == "Steerer" {
      SteererRoundTrip(e);
    }
  }


  /** Proof step: the part of `CorrectorRoundTrip` the dict-wide proof needs. */
  lemma CorrectorRoundTripKind(e: Element)
    ensures FromCorrector(ToCorrector(e)).1 == None
    ensures FromCorrector(ToCorrector(e)).0.kind == e.kind
  {
    CorrectorRoundTrip(e);
  }

  /** A horizontal steerer that carries its kick as `kick` rather than
      `hkick` comes back with `kick` set to 0. */
  lemma HorizontalKickLost()
    ensures var e := Element("HorizontalSteerer", Dict(["kick"], map["kick" := Num(1.0)]));
            FromCorrector(ToCorrector(e)).0.attrs.items["kick"] == Zero
  {
    var e := Element("HorizontalSteerer", Dict(["kick"], map["kick" := Num(1.0)]));
    CorrectorRoundTrip(e);
  }

  // ---------------------------------------------------------------------------
  // The loops over the elements dict

  /** `map_to_corrector(elements)` as a value: every element rewritten, the
      names in their order. */
  function ToCorrectorAll(d: Dict<Element>): Dict<Element> {
    Dict(d.keys, map k | k in d.items :: ToCorrector(d.items[k]))
  }

  /** `map_to_corrector(elements)`: rewrites each element in place. */
  method MapToCorrector(elements: ElementDict)
    requires elements.contents.Valid()
    modifies elements
    ensures elements.contents == ToCorrectorAll(old(elements.contents))
  {
    ghost var d := elements.contents;
    var keys := elements.contents.keys;
    var i := 0;
    while i < |keys|
      invariant 0 <= i <= |keys|
      invariant elements.contents.keys == keys
      invariant elements.contents.items.Keys == d.items.Keys
      invariant forall k :: k in d.items ==>
                  elements.contents.items[k] == if k in keys[..i] then ToCorrector(d.items[k]) else d.items[k]
    {
      var name := keys[i];
      assert keys[..i + 1] == keys[..i] + [name];
      assert name !in keys[..i];
      elements.contents := elements.contents.Put(name, ToCorrector(elements.contents.items[name]));
      i := i + 1;
    }
    assert keys[..i] == keys;
  }

  /** The `map_from_corrector` loop from the name `ks[0]` on: the dict where
      it stops and the exception that stopped it, if any. */
  function FromCorrectorFrom(ks: seq<string>, d: Dict<Element>): (Dict<Element>, Option<Error>)
    requires forall k :: k in ks ==> k in d.items
    decreases |ks|
  {
    if ks == [] then (d, None)
    else
      var step := FromCorrector(d.items[ks[0]]);
      var next := d.Put(ks[0], step.0);
      if step.1.Some? then (next, step.1) else FromCorrectorFrom(ks[1..], next)
  }

  /** `map_from_corrector(elements)`: the final dict and the exception. */
  function FromCorrectorAll(d: Dict<Element>): (Dict<Element>, Option<Error>)
    requires d.Valid()
  {
    FromCorrectorFrom(d.keys, d)
  }

  /** `map_from_corrector(elements)`: rewrites each element in place; a
      `KeyError` stops it with the earlier elements already rewritten. */
  method MapFromCorrector(elements: ElementDict) returns (error: Option<Error>)
    requires elements.contents.Valid()
    modifies elements
    ensures (elements.contents, error) == FromCorrectorAll(old(elements.contents))
  {
    ghost var spec := FromCorrectorAll(elements.contents);
    var keys := elements.contents.keys;
    var i := 0;
    while i < |keys|
      invariant 0 <= i <= |keys|
      invariant elements.contents.items.Keys == old(elements.contents.items.Keys)
      invariant forall k :: k in keys ==> k in elements.contents.items
      invariant FromCorrectorFrom(keys[i..], elements.contents) == spec
    {
      assert keys[i..][0] == keys[i] && keys[i..][1..] == keys[i + 1..];
      var name := keys[i];
      var step := FromCorrector(elements.contents.items[name]);
      elements.contents := elements.contents.Put(name, step.0);
      if step.1.Some? {
        return step.1;
      }
      i := i + 1;
    }
    return None;
  }

  /** When no element of `ks` makes `map_from_corrector` raise, every one of
      them is rewritten and nothing else changes. */
  lemma {:induction false} FromCorrectorFromClean(ks: seq<string>, d: Dict<Element>)
    requires Distinct(ks) && forall k :: k in ks ==> k in d.items
    requires forall k :: k in ks ==> FromCorrector(d.items[k]).1 == None
    ensures FromCorrectorFrom(ks, d).1 == None
    ensures FromCorrectorFrom(ks, d).0.keys == d.keys
    ensures FromCorrectorFrom(ks, d).0.items.Keys == d.items.Keys
    ensures forall k :: k in d.items ==>
              FromCorrectorFrom(ks, d).0.items[k] == if k in ks then FromCorrector(d.items[k]).0 else d.items[k]
    decreases |ks|
  {
    if ks != [] {
      var next := d.Put(ks[0], FromCorrector(d.items[ks[0]]).0);
      assert forall k :: k in ks[1..] ==> k != ks[0] && k in ks by {
        forall k | k in ks[1..] ensures k != ks[0] && k in ks {
          var j :| 0 <= j < |ks[1..]| && ks[1..][j] == k;
          assert ks[j + 1] == k;
        }
      }
      FromCorrectorFromClean(ks[1..], next);
    }
  }

  /** `map_from_corrector` raises exactly when one of the elements it visits
      raises. */
  lemma {:induction false} FromCorrectorFromRaises(ks: seq<string>, d: Dict<Element>)
    requires Distinct(ks) && forall k :: k in ks ==> k in d.items
    ensures FromCorrectorFrom(ks, d).1 == None <==> forall k :: k in ks ==> FromCorrector(d.items[k]).1 == None
    decreases |ks|
  {
    if ks != [] && FromCorrector(d.items[ks[0]]).1 == None {
      var next := d.Put(ks[0], FromCorrector(d.items[ks[0]]).0);
      assert forall k :: k in ks[1..] ==> k != ks[0] && k in ks && next.items[k] == d.items[k] by {
        forall k | k in ks[1..] ensures k != ks[0] && k in ks {
          var j :| 0 <= j < |ks[1..]| && ks[1..][j] == k;
          assert ks[j + 1] == k;
        }
      }
      FromCorrectorFromRaises(ks[1..], next);
      assert forall k :: k in ks ==> k == ks[0] || k in ks[1..] by {
        forall k | k in ks ensures k == ks[0] || k in ks[1..] {
          var j :| 0 <= j < |ks| && ks[j] == k;
          if j > 0 { assert ks[1..][j - 1] == k; }
        }
      }
    }
  }

  /** When `ks[i]` is the first element that raises, `map_from_corrector`
      raises its exception, with the elements up to and including `ks[i]`
      rewritten and every other element, the later ones included, untouched. */
  lemma {:induction false} FromCorrectorFromFirstError(ks: seq<string>, d: Dict<Element>, i: nat)
    requires Distinct(ks) && forall k :: k in ks ==> k in d.items
    requires i < |ks| && FromCorrector(d.items[ks[i]]).1.Some?
    requires forall j :: 0 <= j < i ==> FromCorrector(d.items[ks[j]]).1 == None
    ensures FromCorrectorFrom(ks, d).1 == FromCorrector(d.items[ks[i]]).1
    ensures FromCorrectorFrom(ks, d).0.keys == d.keys
    ensures FromCorrectorFrom(ks, d).0.items.Keys == d.items.Keys
    ensures forall k :: k in d.items ==>
              FromCorrectorFrom(ks, d).0.items[k] == if k in ks[..i + 1] then FromCorrector(d.items[k]).0 else d.items[k]
    decreases |ks|
  {
    var step := FromCorrector(d.items[ks[0]]);
    var next := d.Put(ks[0], step.0);
    if i == 0 {
      assert FromCorrectorFrom(ks, d) == (next, step.1);
      assert ks[..1] == [ks[0]];
    } else {
      assert step.1 == None;
      assert FromCorrectorFrom(ks, d) == FromCorrectorFrom(ks[1..], next);
      FirstErrorTail(ks, d, i);
      FromCorrectorFromFirstError(ks[1..], next, i - 1);
      RewrittenTail(ks, d, next, i, FromCorrectorFrom(ks[1..], next).0);
    }
  }

  /** Proof step: once `ks[0]` is rewritten without raising, `ks[i]` is still
      the first element that raises, one place earlier in `ks[1..]`. */
  lemma FirstErrorTail(ks: seq<string>, d: Dict<Element>, i: nat)
    requires Distinct(ks) && forall k :: k in ks ==> k in d.items
    requires 0 < i < |ks| && FromCorrector(d.items[ks[i]]).1.Some?
    requires forall j :: 0 <= j < i ==> FromCorrector(d.items[ks[j]]).1 == None
    ensures Distinct(ks[1..])
    ensures forall k :: k in ks[1..] ==> k in d.Put(ks[0], FromCorrector(d.items[ks[0]]).0).items
    ensures FromCorrector(d.Put(ks[0], FromCorrector(d.items[ks[0]]).0).items[ks[1..][i - 1]]).1.Some?
    ensures forall j :: 0 <= j < i - 1 ==> FromCorrector(d.Put(ks[0], FromCorrector(d.items[ks[0]]).0).items[ks[1..][j]]).1 == None
  {
    var next := d.Put(ks[0], FromCorrector(d.items[ks[0]]).0);
    forall j | 0 <= j < i - 1 ensures FromCorrector(next.items[ks[1..][j]]).1 == None {
      assert ks[1..][j] == ks[j + 1] != ks[0];
    }
    assert ks[1..][i - 1] == ks[i] != ks[0];
    assert Distinct(ks[1..]) by {
      forall a, b | 0 <= a < b < |ks[1..]| ensures ks[1..][a] != ks[1..][b] {
        assert ks[1..][a] == ks[a + 1] && ks[1..][b] == ks[b + 1];
      }
    }
  }

  /** Proof step: what the recursive call leaves, seen from the whole of `ks`. */
  lemma RewrittenTail(ks: seq<string>, d: Dict<Element>, next: Dict<Element>, i: nat, r: Dict<Element>)
    requires Distinct(ks) && 0 < i < |ks| && ks[0] in d.items
    requires next == d.Put(ks[0], FromCorrector(d.items[ks[0]]).0)
    requires r.keys == next.keys && r.items.Keys == next.items.Keys
    requires forall k :: k in next.items ==>
               r.items[k] == if k in ks[1..][..i] then FromCorrector(next.items[k]).0 else next.items[k]
    ensures r.keys == d.keys && r.items.Keys == d.items.Keys
    ensures forall k :: k in d.items ==>
              r.items[k] == if k in ks[..i + 1] then FromCorrector(d.items[k]).0 else d.items[k]
  {
    assert ks[..i + 1] == [ks[0]] + ks[1..][..i];
    forall k | k in d.items
      ensures r.items[k] == if k in ks[..i + 1] then FromCorrector(d.items[k]).0 else d.items[k]
    {
      if k in ks[1..][..i] {
        var j :| 0 <= j < i && ks[1..][..i][j] == k;
        assert ks[j + 1] == k != ks[0];
      }
    }
  }

  /** `map_from_corrector` after `map_to_corrector` on a whole dict never
      raises, keeps the names in order and gives every element back its type,
      with the attributes `CorrectorRoundTrip` states. */
  lemma MapRoundTrip(d: Dict<Element>)
    requires d.Valid()
    ensures ToCorrectorAll(d).Valid()
    ensures FromCorrectorAll(ToCorrectorAll(d)).1 == None
    ensures FromCorrectorAll(ToCorrectorAll(d)).0.keys == d.keys
    ensures FromCorrectorAll(ToCorrectorAll(d)).0.items.Keys == d.items.Keys
    ensures forall k :: k in d.items ==>
              && FromCorrectorAll(ToCorrectorAll(d)).0.items[k] == FromCorrector(ToCorrector(d.items[k])).0
              && FromCorrectorAll(ToCorrectorAll(d)).0.items[k].kind == d.items[k].kind
  {
    var t := ToCorrectorAll(d);
    assert t.items.Keys == d.items.Keys;
    assert t.Valid();
    assert forall k :: k in t.keys ==> FromCorrector(t.items[k]).1 == None by {
      forall k | k in t.keys ensures FromCorrector(t.items[k]).1 == None {
        CorrectorRoundTripKind(d.items[k]);
      }
    }
    FromCorrectorFromClean(t.keys, t);
    var r := FromCorrectorFrom(t.keys, t).0;
    assert FromCorrectorAll(t).0 == r;
    forall k | k in d.items
      ensures r.items[k] == FromCorrector(ToCorrector(d.items[k])).0 && r.items[k].kind == d.items[k].kind
    {
      assert k in t.keys && t.items[k] == ToCorrector(d.items[k]);
      CorrectorRoundTripKind(d.items[k]);
    }
  }
}
