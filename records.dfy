/** The measurement list that `extract_matches` builds and `assemble_influx_lp`
    consumes: `[device, measurement, (name, kind, valuetype, value), ...]`. */
module Records {

  /** One `(name, kind, valuetype, value)` tuple; `kind` is `'tag'` or `'field'`
      in a well-configured parse spec, but any text is carried. */
  datatype Entry = Entry(name: string, kind: string, valueType: string, value: string)

  /** One element of a measurement list: a plain string (the device alias and
      the measurement name) or a tuple. */
  datatype Item = Str(text: string) | Tup(entry: Entry)

  /** The shape every list built by `extract_matches` has. */
  predicate WellFormed(items: seq<Item>) {
    && |items| >= 2
    && items[0].Str?
    && items[1].Str?
    && forall k :: 2 <= k < |items| ==> items[k].Tup?
  }

  /** Every list of a batch has that shape. */
  predicate AllWellFormed(records: seq<seq<Item>>) {
    forall i :: 0 <= i < |records| ==> WellFormed(records[i])
  }

  /** The tuples of a list of items that are all tuples. */
  function EntriesOf(items: seq<Item>): (es: seq<Entry>)
    requires forall k :: 0 <= k < |items| ==> items[k].Tup?
    ensures |es| == |items|
    ensures forall k :: 0 <= k < |items| ==> items[k] == Tup(es[k])
  {
    seq(|items|, k requires 0 <= k < |items| => items[k].entry)
  }

  /** A Python list of measurement items, which `assemble_influx_lp` changes in
      place with `pop(0)`. */
  class Measurement {
    var items: seq<Item>

    constructor (items: seq<Item>)
      ensures this.items == items
    {
      this.items := items;
    }

    /** `list.pop(0)`. */
    method Pop() returns (x: Item)
      requires |items| > 0
      modifies this
      ensures x == old(items)[0]
      ensures items == old(items)[1..]
    {
      x := items[0];
      items := items[1..];
    }
  }
}
