/** The data the converter works on: attribute values, elements, the raw record
    a foreign-format parser produces, the LatticeJSON record, and the errors and
    warnings of latticeconverter/exceptions.py. */
module LatticeData {
  import opened Dicts

  datatype Option<T> = None | Some(value: T)

  /** An attribute value: a number or a string. */
  datatype Value = Num(x: real) | Str(s: string)

  /** An element `[type, {attribute: value}]`. */
  datatype Element = Element(kind: string, attrs: Dict<Value>)

  /** The exceptions the core raises. */
  datatype Error =
    | KeyError(key: string)
    | IndexError
    | TypeError
    | ElementsOverlap(element: string, position: real)

  /** The warnings the core issues; they never stop a conversion. */
  datatype Warning =
    | UnknownElementType(element: string, kind: string)
    | UnknownAttribute(attribute: string, element: string)
    | DiscardUnusedLattice(lattice: string)

  datatype Result<T> = Ok(value: T) | Err(error: Error)

  /** A foreign-format directive `[keyword, name, [(attribute, value), ...]]`. */
  datatype Command = Command(keyword: string, target: string, params: seq<(string, Value)>)

  /** A LatticeJSON lattice: title, root lattice, elements and lattices. */
  datatype LatticeJson = LatticeJson(
    title: string,
    root: string,
    elements: Dict<Element>,
    lattices: Dict<seq<string>>)

  /** The elements dict and every attribute dict in it are well-formed dicts. */
  ghost predicate WellFormed(elements: Dict<Element>) {
    elements.Valid() && forall n :: n in elements.items ==> elements.items[n].attrs.Valid()
  }

  /** Every listed name of a well-formed elements dict has an element with
      well-formed attributes. */
  lemma WellFormedKeys(elements: Dict<Element>)
    requires WellFormed(elements)
    ensures forall k :: k in elements.keys ==> k in elements.items && elements.items[k].attrs.Valid()
  {
  }

  /** What the parser of a foreign format produces; `title` and `root` may be absent. */
  datatype RawRecord = RawRecord(
    title: Option<string>,
    root: Option<string>,
    elements: Dict<Element>,
    lattices: Dict<seq<string>>,
    commands: seq<Command>)

  /** The `elements` dict of a lattice as a shared, mutable object: the
      geometry and corrector operations change it in place. */
  class ElementDict {
    var contents: Dict<Element>

    constructor (d: Dict<Element>)
      ensures contents == d
    {
      contents := d;
    }
  }
}
