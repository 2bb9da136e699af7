# lattice-converter core in Dafny

This project models the core of `latticeconverter`, a converter of
particle-accelerator lattice descriptions. It converts between the LatticeJSON
interchange record and two foreign lattice languages, elegant and MAD-X. The
model covers two parts.

- The lattice structure algorithms of `latticeconverter/utils.py`:
  - `sort_lattices`, a depth-first walk that orders lattice definitions so
    each comes after the lattices it references;
  - `seq2line` and `line2seq`, which convert between absolute element
    positions ("sequence") and lines whose gaps are filled with numbered
    `Drift` elements;
  - `map_to_corrector` and `map_from_corrector`, which rewrite steerer
    elements in place.
- The name reconciliation and emission of `latticeconverter/convert.py`:
  - the `TO_*` and `FROM_*` lookup tables built from the rows of the name
    map;
  - `_map_names`, which turns a parsed foreign record into a LatticeJSON
    record;
  - the two writers `to_elegant` and `to_madx`.

Modules, one per concern:

- `Dicts` (`dicts.dfy`) models Python's insertion-ordered `dict` as a value:
  a key sequence beside a map. `Put` keeps the place of an existing key,
  `Pop` removes a key wherever it stands, and `Update` is `dict.update`.
- `LatticeData` (`lattice_data.dfy`) holds:
  - attribute values, as a number or a string;
  - elements `[type, attributes]`;
  - the raw record a parser produces, and the LatticeJSON record;
  - errors (`KeyError`, `IndexError`, `TypeError`, `ElementsOverlap`) and
    warnings (unknown element type, unknown attribute, discarded lattice);
  - `ElementDict`, the shared `elements` dict that `seq2line` and the
    corrector functions change in place.
- `Text` (`text.dfy`) has `str()` of a natural number and `", ".join`.
- `Sorting` (`sorting.dfy`) models `sort_lattices`:
  - the closure's state (the working set and the result dict) is the class
    `Sorter`;
  - the recursive `_sort_lattices` is `Sorter.Visit`, proved against the
    spec functions `PostOrder` and `PostOrderChildren`; `Sorter.Enter` is a
    call from outside the walk, which raises `KeyError` for a name no longer
    in the working set;
  - the `keep_unused` loop as written is `Sorter.KeepUnused`, and the loop
    that the parameter's name and the docstring's "sorted dict of lattice
    objects" (utils.py:21-22) call for is `Sorter.VisitRest`.
- `Geometry` (`geometry.dfy`) models `seq2line` and `line2seq`:
  - the spec function `Place` is one turn of the `seq2line` loop, and
    `ScanFrom` is the rest of it;
  - `Centres` is the `line2seq` accumulation;
  - the methods `Seq2Line` and `Line2Seq` are the loops themselves.
- `Correctors` (`correctors.dfy`) models the two corrector mappings: one
  spec function per element, and a loop method per mapping that rewrites the
  shared dict.
- `NameMap` (`name_map.dfy`) models the lookup tables as functions of the
  name-map rows.
- `Reconcile` (`reconcile.dfy`) models `_map_names`:
  - the method `MapNames` runs the element loop over a copy of the raw
    elements and merges aliases into it, as the source does;
  - it is proved equal to the fold `ReconcileTo` plus the `root` and `title`
    defaults (`MapNamesSpec`).
- `Emit` (`emit.dfy`) models `to_elegant` and `to_madx`:
  - the two writers share `Write`, parameterised by the format;
  - `Write` is proved equal to `Join(Document(..), "\n")`, where `Document`
    lists the lines.

Points where the code behaves differently from what its names suggest; the
model follows the code.

- `_map_names` writes only the translated attributes of an element
  (convert.py:92-100): no attribute is filled in, so an element without
  attributes has no `length` in the LatticeJSON record.
- In an alias merge the referenced element's attributes win over the
  element's own (convert.py:84, `other_attributes.update(additional_attributes)`).
- `sort_lattices` cannot recurse forever on a cyclic reference. A name
  leaves the working set before its children are walked, and only names
  still in the set are walked (utils.py:28-31). `Sorter.Visit` terminates by
  the shrinking working set.
- `to_madx` writes the `LINE` form only: it has no path that writes a
  MAD-X sequence, and `commands` are not carried into the LatticeJSON
  record (convert.py:113-119).
- `sort_lattices` with `keep_unused` does not keep the lattices the root
  does not reach: it raises `KeyError` for the first one it pops
  (utils.py:28,37). The model does the same; the keep-everything walk that
  the parameter's name `keep_unused` calls for is modelled beside it (see "## Findings").

## Model

| member | source | states |
|---|---|---|
| Sorting.PostOrder | latticeconverter/utils.py:27-32 | the walk from `name` emits no lattice twice; it emits exactly the lattices it took out of the working set, and `name` last |
| Sorting.Sorter.Visit | latticeconverter/utils.py:27-32 | the working set and the result after `_sort_lattices(name)` are those of the `PostOrder` walk; the result dict stays a dict of unchanged child lists; termination by the shrinking working set |
| Sorting.Sorter.Pop | latticeconverter/utils.py:37 | `lattices_set.pop()` takes some name out of the working set and leaves the result as it was |
| Sorting.Sorter.Enter | latticeconverter/utils.py:27-32 | `_sort_lattices(name)` raises `KeyError(name)`, changing nothing, exactly when `name` is not in the working set; otherwise it is the `PostOrder` walk |
| Sorting.Sorter.KeepUnused | latticeconverter/utils.py:35-37 | the `keep_unused` loop as written raises exactly when a lattice is left in the working set, with `KeyError` of one of those lattices, and never adds to the result |
| Sorting.Sorter.Finish | latticeconverter/utils.py:35-41 | after the walk from the start: with `keep_unused`, the result dict when no lattice is left and otherwise a `KeyError` of a leftover lattice; without it, the result dict and one discard warning per leftover lattice |
| Sorting.Sorter.VisitRest | latticeconverter/utils.py:35-37 | the `keep_unused` loop as the parameter's name and the docstring (utils.py:21-22) call for it (walk from a name still in the set): it empties the working set; the earlier result is a prefix of the final one; every lattice is in the result; children-first order is kept for acyclic lattices |
| Sorting.SortedOrderClosed | latticeconverter/utils.py:27-34 | the root is emitted, and every lattice referenced by an emitted lattice is emitted too |
| Sorting.SortedOrderReachable | latticeconverter/utils.py:27-34 | the emitted lattices lie inside every reference-closed set that holds the root, so together with `SortedOrderClosed` they are exactly the lattices reachable from the root |
| Sorting.SortedOrderChildrenFirst | latticeconverter/utils.py:27-32 | when the references have no cycle, every referenced lattice comes before the lattice that references it |
| Sorting.DiscardUnused | latticeconverter/utils.py:38-40 | one "Discard unused lattice" warning for each unused lattice, and no other warning |
| Sorting.SortAll | latticeconverter/utils.py:34-37 | `keep_unused` as its name and the docstring (utils.py:21-22) call for it: the walk from the start comes first, every lattice appears exactly once, and for acyclic lattices each child comes before its parent |
| Sorting.SortLattices | latticeconverter/utils.py:21-41 | `KeyError(start)` exactly when the start (`root`, else the record's root) is not a lattice; with `keep_unused`, otherwise a `KeyError` of an unreached lattice exactly when some lattice is not reached from the start; on success the values are the unchanged child lists in the order of the walk from the start, with one discard warning per unreached lattice without `keep_unused` and no warning with it |
| Sorting.KeepUnusedRaises | latticeconverter/utils.py:28-37 | with lattices `A` and `B` (no children) and root `A`, `B` is unreached, so `sort_lattices` with `keep_unused` raises `KeyError("B")` |
| Text.NatToStringInjective | latticeconverter/utils.py:165 | different drift numbers give different `str()` texts, so the drift names `drift_k` never collide |
| Geometry.DriftNameInjective | latticeconverter/utils.py:165 | `"drift_" + str(k)` names a different drift for each `k` |
| Geometry.Place | latticeconverter/utils.py:138-176 | a missing element or `length` raises `KeyError`; a string `length` raises `TypeError`; `ElementsOverlap(elem, pos)` is raised exactly when the gap is below -1e-6; a gap of exactly 1e-6 leaves the state unchanged |
| Geometry.Seq2Line | latticeconverter/utils.py:97-178 | the loop returns or raises what the spec fold `ScanFrom` gives, and leaves `elements` as the fold leaves it |
| Geometry.Seq2LineChanges | latticeconverter/utils.py:133-176 | the only changes to `elements` are the keys `drift_0` .. `drift_{n-1}`, each set to a `Drift` longer than 1e-6 (a pre-existing `drift_k` is overwritten in place); every other element is unchanged, and the old keys keep their order |
| Geometry.Seq2LineShape | latticeconverter/utils.py:161-176 | when no input name looks like a drift, the drifts in the line are `drift_0`, `drift_1`, … in order, each immediately followed by an input name |
| Geometry.Seq2LineExit | latticeconverter/utils.py:135-176 | when no input name looks like a generated drift, `elem_exit` equals the summed lengths of the names in the line, looked up in the final `elements` |
| Geometry.Seq2LineNames | latticeconverter/utils.py:136-176 | when `seq2line` finishes and no gap sits exactly on the threshold, the line without its drifts is the input names in order |
| Geometry.BoundaryGapOmitted | latticeconverter/utils.py:148-176 | an element whose gap is exactly 1e-6 matches none of the three branches: it is silently left out, and the exit does not move |
| Geometry.GapExample | latticeconverter/utils.py:136-176 | A of length 10 at 5 and B of length 4 at 15 give the line A, `drift_0`, B with a drift of length 3 |
| Geometry.OverlapExample | latticeconverter/utils.py:157-159 | A of length 10 at 5 and B of length 2 at 9 raise `ElementsOverlap` for B |
| Geometry.Line2Seq | latticeconverter/utils.py:180-214 | the loop returns what the spec fold `Centres` gives, or the first lookup error; `elements` is passed by value and is not changed |
| Geometry.CentresNames | latticeconverter/utils.py:199-214 | `line2seq` returns exactly the names whose element is not a `Drift`, in order; its final position is the summed length of the line |
| Geometry.PlaceCentres | latticeconverter/utils.py:136-214 | after one `seq2line` step, `line2seq` of the new line adds the placed element at a position within 1e-6 of the original, and exactly the original where a drift was inserted |
| Geometry.RoundTrip | latticeconverter/utils.py:136-214 | `line2seq` after `seq2line` gives back the input names in order, each within 1e-6 of its position (preconditions: no input is a drift by name or type, no gap is exactly on the threshold, and `seq2line` does not raise) |
| Correctors.ToCorrector | latticeconverter/utils.py:232-249 | a horizontal, vertical or combined steerer becomes a `Steerer` with `kick_plane` `h`/`v`/`hv`; `hkick` and `vkick` are set (own value, or 0 when missing or off-plane) and all other attributes are kept; the popped kick leaves its place, the other keys keep their order, and `kick_plane`, `hkick`, `vkick` follow, each only when new; other elements are unchanged |
| Correctors.ToCorrectorValid | latticeconverter/utils.py:235-249 | the rewritten attributes are still a well-formed dict |
| Correctors.FromCorrector | latticeconverter/utils.py:267-282 | a `Steerer` with plane `h`/`v` becomes a horizontal or vertical steerer with one `kick` (its in-plane kick), and both kicks and the plane are removed; any other plane keeps `Steerer` and loses only `kick_plane`; a missing `kick_plane` is a `KeyError` with the element unchanged; a missing in-plane kick is a `KeyError` after `kick_plane` was removed and the type changed; a missing other kick is a `KeyError` after the in-plane kick was removed too; on every path the remaining keys keep their order, and `kick` goes last unless it was already there |
| Correctors.FromPlane | latticeconverter/utils.py:273-282 | one plane branch after `kick_plane` is popped: a missing in-plane kick is a `KeyError` with the attributes untouched, a missing other kick is a `KeyError` after the in-plane kick was popped; otherwise both kicks are gone, `kick` holds the in-plane kick, the other keys keep their order and `kick` goes last unless it was there; the type is set on every path |
| Correctors.MapToCorrector | latticeconverter/utils.py:216-249 | the loop rewrites every element of the shared dict as `ToCorrector` does, and keeps its keys and their order |
| Correctors.MapFromCorrector | latticeconverter/utils.py:251-282 | the loop leaves the shared dict, and raises the error, exactly as the spec fold does, stopping at the first element that raises |
| Correctors.FromCorrectorFromRaises | latticeconverter/utils.py:267-282 | the loop raises exactly when one of the elements it visits raises |
| Correctors.FromCorrectorFromFirstError | latticeconverter/utils.py:267-282 | when `ks[i]` is the first element that raises, the loop raises its `KeyError`, with the elements up to `ks[i]` rewritten (that one partly) and every later element untouched |
| Correctors.CorrectorRoundTrip | latticeconverter/utils.py:232-282 | `map_from_corrector` after `map_to_corrector` never raises on an element, and gives back its type; a horizontal or vertical steerer ends with one `kick` (its own in-plane kick, or 0), while a `Steerer` keeps both kicks and loses `kick_plane` |
| Correctors.HorizontalKickLost | latticeconverter/utils.py:232-282 | a horizontal steerer that carries its kick as `kick` comes back from the round trip with `kick` = 0 |
| Correctors.MapRoundTrip | latticeconverter/utils.py:216-282 | over a whole dict, the round trip raises nothing, keeps the keys and their order, and gives every element back its type |
| NameMap.ToTable | latticeconverter/convert.py:17-19 | `TO_ELEGANT` (line 17) and `TO_MADX` (line 19): `TO_X` builds exactly when every row has a first name in the column (otherwise `IndexError`), and its keys are the rows' LatticeJSON names |
| NameMap.ToTableLast | latticeconverter/convert.py:17-19 | a LatticeJSON name maps to the first foreign name of the last row that carries it |
| NameMap.FromTable | latticeconverter/convert.py:18-20 | `FROM_ELEGANT` (line 18) and `FROM_MADX` (line 20): `FROM_X` builds exactly when every row has the column (otherwise `IndexError`), and its keys are all the foreign names of the column |
| NameMap.FromTableLast | latticeconverter/convert.py:18-20 | a foreign name maps back to the LatticeJSON name of the last row that lists it |
| NameMap.FromAfterTo | latticeconverter/convert.py:16-20 | `FROM_X[TO_X[x]] == x` for every LatticeJSON name, when no foreign name is listed by two rows |
| Reconcile.ResolveMerge | latticeconverter/convert.py:82-84 | an element whose type names another element takes that element's type; its attributes become the union, where the referenced values win and its own values stay otherwise, and its own keys keep their order; any other element is left as it is |
| Reconcile.Translate | latticeconverter/convert.py:86-100 | an unmapped type gives `Drift` with `length` = `L` or 0 and exactly one unknown-type warning; a mapped type gives the mapped type and the translated attributes |
| Reconcile.TranslateAttrsKeys | latticeconverter/convert.py:92-100 | the translated attributes form a dict whose keys are exactly the mapped names of the known attribute keys |
| Reconcile.TranslateAttrsOrder | latticeconverter/convert.py:95-98 | the translated attributes are ordered by the first known attribute name that maps to each LatticeJSON name, repeats dropped (a later overwrite keeps the first place) |
| Reconcile.TranslateAttrsValues | latticeconverter/convert.py:95-98 | each mapped name holds the value of the last known key that maps to it |
| Reconcile.TranslateAttrsWarnings | latticeconverter/convert.py:95-100 | one unknown-attribute warning per unknown key, in order, and no other warning |
| Reconcile.TranslateAttributes | latticeconverter/convert.py:93-100 | the attribute loop gives the translated attributes and warnings of the spec fold |
| Reconcile.ReconcileRaw | latticeconverter/convert.py:78-84 | the element loop only merges aliases into the raw elements: same names, order and types, and an element that is no alias is untouched |
| Reconcile.ReconcileKeys | latticeconverter/convert.py:77-94 | the result has exactly the input element names, in input order |
| Reconcile.ReconcileValues | latticeconverter/convert.py:78-100 | every element is the translation of its resolved type and of its own attributes updated with its target's: the target's attributes as the loop left them when the loop reached it earlier, its parsed ones otherwise; an alias is left in the parser's elements with those merged attributes |
| Reconcile.ReconcileWarnings | latticeconverter/convert.py:78-100 | the warnings of the element loop are, element by element in order, the one unknown-type warning (line 89) or the unknown-attribute warnings of its merged attributes (line 100) |
| Reconcile.ReconcileUnchained | latticeconverter/convert.py:78-100 | an element outside a chain of aliases is the translation of its type and attributes resolved against the parser's elements |
| Reconcile.ReconcileKinds | latticeconverter/convert.py:86-94 | every resulting type is `Drift` or a LatticeJSON name of the table |
| Reconcile.MapElement | latticeconverter/convert.py:78-100 | one turn of the element loop advances the state by one name of the fold `ReconcileTo` |
| Reconcile.MapNamesSpec | latticeconverter/convert.py:110-119 | `IndexError` exactly when there are no lattices, even when `root` is given; `root` defaults to the last lattice and `title` to `""`; `lattices` passes through unchanged |
| Reconcile.MapNamesElements | latticeconverter/convert.py:77-100 | the LatticeJSON elements keep the input names and order; each is the translation of its resolved type and merged attributes as `ReconcileValues` states, and an unchained one simply of its resolved type and attributes; types are `Drift` or table names; the raw record is changed only by alias merges; the warnings issued, even when `IndexError` follows, are every element's own in element order, as `ReconcileWarnings` states |
| Reconcile.MapNames | latticeconverter/convert.py:58-119 | the method's record, warnings and changed raw elements are those of `MapNamesSpec` |
| Emit.AttrPartsSpec | latticeconverter/convert.py:144 | the attribute text (also line 180 of `to_madx`) exists exactly when every attribute name is mapped; otherwise it is the `KeyError` of the first unmapped name; each part is `mapped=value`, in order |
| Emit.ElementTextSpec | latticeconverter/convert.py:143-146 | an element line (also lines 179-182 of `to_madx`) exists exactly when its attributes and type are mapped; an attribute error comes before a type error |
| Emit.WriteElements | latticeconverter/convert.py:143-146 | the element loop (also lines 179-182 of `to_madx`) gives the element lines of the spec, or the first element's error |
| Emit.DocumentOk | latticeconverter/convert.py:137-153 | the output of `to_elegant` (and of `to_madx`, lines 172-189) exists exactly when every element type and attribute name is mapped and the root is a lattice; with everything mapped the only error is `KeyError(root)` |
| Emit.DocumentFirstError | latticeconverter/convert.py:143-146 | the error raised (also lines 179-182 of `to_madx`) is that of the first element, in insertion order, whose line fails |
| Emit.DocumentLayout | latticeconverter/convert.py:140-153 | for `to_elegant` and for `to_madx` (lines 175-189), 2 + elements + sorted lattices lines: the title line, one line per element in insertion order, one lattice line per lattice in `sort_lattices` order, then the `USE` line naming the root |
| Emit.Write | latticeconverter/convert.py:137-153 | for both writers (`to_madx` at lines 172-189), the text is the document's lines joined by newlines, or the document's error; the warnings are those of `sort_lattices` about unreachable lattices |
| Emit.ToElegant | latticeconverter/convert.py:121-153 | `to_elegant` fails exactly when a name is unmapped or the root is not a lattice; otherwise it gives the elegant document joined by newlines |
| Emit.ToMadx | latticeconverter/convert.py:156-189 | `to_madx` fails exactly when a name is unmapped or the root is not a lattice; otherwise it gives the MAD-X document joined by newlines |

## Left out

- `latticeconverter/io.py` is not part of this model. It is a format dispatch
  that raises `NotImplementedError` for an unknown format (io.py:57,133).
- The foreign parsers `parse_elegant` and `parse_madx` are external. Their
  result is an input: the `RawRecord` given to `MapNames`.
- Reading `map.json` at import time is file I/O. The tables are built from
  rows passed as a parameter (`NameMap`), and the writers take the table as a
  parameter.
- `warnings.warn` is modelled as a returned sequence of warnings.
- Python's `str()` of an attribute value in the writers is the parameter
  `show`.
- Lengths and positions are exact reals, not IEEE-754 floats. `np.absolute`
  is `Abs`.
- `latticeconverter/exceptions.py` is not part of this model. Its errors and
  warnings are modelled by their names and arguments as the core raises them.
- Aliasing between Python objects is not modelled:
  - the corrector functions change the element held in the shared dict, but
    an attribute dict shared by two elements is not modelled;
  - the alias merge of `_map_names` changes the raw record, and `MapNames`
    returns the changed raw elements instead.
- Python's recursion limit on deep lattice nesting is not modelled.
- Sorting.DiscardUnused: states one warning for every unused lattice and no
  other warning. It does not state their order, because Python's set
  iteration order is unspecified.
- Sorting.Sorter.VisitRest: `set.pop()` picks an arbitrary name, so the order
  of lattices after the walk from the start is not pinned down. What is
  stated is that the order holds every lattice once, and that children come
  first for acyclic lattices.
- Sorting.SortLattices: which unreached lattice the `KeyError` names is not
  stated beyond being one of them, because `set.pop()` picks an arbitrary one.
- Reconcile.TranslateAttrsKeys: states the key set of the translated
  attributes; their order is stated by `Reconcile.TranslateAttrsOrder`.
- LatticeData.Value: a number is one exact real, so Python's int `0` and
  float `0.0` are the same value. The defaults the source writes are ints
  (`attrs.pop('hkick', 0)` at utils.py:235-248, `.get("L", 0)` at
  convert.py:88), and `str()` prints `0` for them where a float prints `0.0`;
  the writers' `show` parameter cannot tell the two apart.
- Geometry.RoundTrip: proved only when no input name looks like a generated
  drift, no input element is of type `Drift`, no gap sits exactly on the
  threshold, and `seq2line` does not raise. Outside these conditions the
  source need not round-trip. A name such as `drift_a`, or `drift_0` with no
  later gap, still comes back exactly; the input fails only when a generated
  drift overwrites an input element of the same name: `drift_0` of length 1
  at 0.5, then `B` of length 2 at 5.0, gives the line `drift_0, drift_0, B`,
  which `line2seq` reads back as `B` at 7.0 alone.
- Geometry.RoundTrip: states closeness within 1e-6 for every position. That
  a position after an inserted drift comes back exactly is stated one step
  at a time, by `Geometry.PlaceCentres` only.
- Geometry.Seq2LineNames: needs the same conditions on drift names and
  threshold gaps.
- Geometry.Seq2LineExit: proved only when no input name looks like a
  generated drift (`drift_k`). Otherwise a drift inserted later can overwrite
  an input element of the same name, and the line's lengths looked up in the
  final `elements` no longer add up to `elem_exit`: `drift_0` of length 1 at
  0.5, then `B` of length 2 at 5.0, gives an exit of 6 where the final
  lengths sum to 8.
- Emit.ToElegant: the warnings and the error value are stated by `Emit.Write`,
  not repeated here.
- Emit.ToMadx: the warnings and the error value are stated by `Emit.Write`,
  not repeated here.

## Findings

| source | as written | input that shows it | evidently intended | confidence | as-written member | corrected member |
|---|---|---|---|---|---|---|
| latticeconverter/utils.py:35-37 | `_sort_lattices(lattices_set.pop())`: `pop()` already removes the name, so `lattices_set.remove(name)` (line 28) raises `KeyError` for every lattice the root does not reach | lattices `A: []` and `B: []`, root `A`, `keep_unused=True`: raises `KeyError('B')` | every lattice the root does not reach is walked and kept, each once, children first | not executed; high | Sorting.SortLattices, Sorting.KeepUnusedRaises | Sorting.SortAll |
