/**
 * The availability parser: a total decoder from a teacher's stored unavailability
 * value to a list of `{day, slotIndexes}` exclusions (web/src/app/api/solve/route.ts).
 */
module Availability {
  import opened Opt
  import opened Json
  import opened Seqs

  datatype Unavail = Unavail(day: string, slotIndexes: seq<int>)

  /** `xs.filter(Number.isInteger).map(Number)`. */
  function IntegerSlots(xs: seq<JsonValue>): seq<int> {
    FilterMap(AsInteger, xs)
  }

  /** The slot list of a record: the integer entries of an array, or `[]` for anything else. */
  function SlotsOf(item: JsonValue): seq<int> {
    match Field(item, "slotIndexes")
    case Some(JArray(xs)) => IntegerSlots(xs)
    case _ => []
  }

  /** One array element: kept when it is a record whose `day` is a non-empty string. */
  function ItemToUnavail(item: JsonValue): Option<Unavail> {
    if !IsRecord(item) then None
    else match Field(item, "day")
      case Some(JString(day)) => if day != "" then Some(Unavail(day, SlotsOf(item))) else None
      case _ => None
  }

  /**
   * What `JSON.parse(String(v))` gives for a truthy value that is not an array:
   * `decode` stands for `JSON.parse` on a stored string, `None` when it throws. Any
   * other value renders as `"true"`, a number, `"Infinity"` or `"[object Object]"`,
   * none of which parses to an array, so it is read as no array at all.
   */
  function Decoded(v: JsonValue, decode: string -> Option<JsonValue>): Option<JsonValue> {
    if v.JString? then decode(v.s) else None
  }

  /** What `parseUnavail` returns. */
  function ParsedUnavail(v: JsonValue, decode: string -> Option<JsonValue>): seq<Unavail> {
    if !Truthy(v) then []
    else
      var arr: Option<JsonValue> := if v.JArray? then Some(v) else Decoded(v, decode);
      match arr
      case Some(JArray(items)) => FilterMap(ItemToUnavail, items)
      case _ => []
  }

  /** The loop of `parseUnavail`: pushes, in order, the entry of every element that is kept. */
  method ParseItems(items: seq<JsonValue>) returns (result: seq<Unavail>)
    ensures result == FilterMap(ItemToUnavail, items)
  {
    result := [];
    var i := 0;
    while i < |items|
      invariant 0 <= i <= |items|
      invariant result == FilterMap(ItemToUnavail, items[..i])
    {
      var item := items[i];
      FilterMapSnoc(ItemToUnavail, items[..i], item);
      assert items[..i + 1] == items[..i] + [item];
      i := i + 1;
      var entry := ItemToUnavail(item);
      if entry.Some? {
        result := result + [entry.value];
      }
    }
    assert items[..i] == items;
  }

  /** `parseUnavail`: decodes the value when it is not already an array, then walks the array. */
  method ParseUnavail(v: JsonValue, decode: string -> Option<JsonValue>) returns (result: seq<Unavail>)
    ensures result == ParsedUnavail(v, decode)
  {
    if !Truthy(v) {
      return [];
    }
    var arr: Option<JsonValue> := if v.JArray? then Some(v) else Decoded(v, decode);
    if arr.None? {
      return [];  // JSON.parse threw, or parsed no array: either way the result is []
    }
    if !arr.value.JArray? {
      return [];
    }
    result := ParseItems(arr.value.items);
  }

  /**
   * The ways to an empty list: a falsy value, a value that is neither an array nor a
   * string (a plain object, `true`, a number), a string whose decoding throws, and a
   * string that decodes to something other than an array.
   */
  lemma ParsedUnavailEmpty(v: JsonValue, decode: string -> Option<JsonValue>)
    requires
      || !Truthy(v)
      || (!v.JArray? && !v.JString?)
      || (v.JString? && decode(v.s).None?)
      || (v.JString? && decode(v.s).Some? && !decode(v.s).value.JArray?)
    ensures ParsedUnavail(v, decode) == []
  {
  }

  /**
   * On an array (stored directly, or a stored string that decodes to one), the result lists, in the
   * array's order, exactly the elements that are records with a non-empty string
   * `day`: the k-th entry comes from the k-th such element, keeps its `day`, and
   * carries the integer entries of its `slotIndexes` in their order, or `[]` when
   * `slotIndexes` is not an array.
   */
  lemma ParsedUnavailRecords(v: JsonValue, decode: string -> Option<JsonValue>, items: seq<JsonValue>)
    requires Truthy(v)
    requires (v.JArray? && v.items == items) || (v.JString? && decode(v.s) == Some(JArray(items)))
    ensures var r, idx := ParsedUnavail(v, decode), KeptIndices(ItemToUnavail, items);
      && |r| == |idx| <= |items|
      && StrictlyIncreasing(idx)
      && (forall i :: 0 <= i < |items| ==>
            (i in idx <==> IsRecord(items[i]) && exists d :: d != "" && Field(items[i], "day") == Some(JString(d))))
      && (forall k :: 0 <= k < |r| ==>
            && r[k].day != ""
            && Field(items[idx[k]], "day") == Some(JString(r[k].day))
            && r[k].slotIndexes == SlotsOf(items[idx[k]]))
  {
    assert ParsedUnavail(v, decode) == FilterMap(ItemToUnavail, items);
    var r, idx := FilterMap(ItemToUnavail, items), KeptIndices(ItemToUnavail, items);
    FilterMapAt(ItemToUnavail, items);
    forall i | 0 <= i < |items|
      ensures i in idx <==> IsRecord(items[i]) && exists d :: d != "" && Field(items[i], "day") == Some(JString(d))
    {
      ItemKept(items[i]);
    }
    forall k | 0 <= k < |r|
      ensures && r[k].day != ""
              && Field(items[idx[k]], "day") == Some(JString(r[k].day))
              && r[k].slotIndexes == SlotsOf(items[idx[k]])
    {
      ItemKept(items[idx[k]]);
    }
  }

  /** An element is kept exactly when it is a record with a non-empty string `day`, and then keeps both. */
  lemma ItemKept(item: JsonValue)
    ensures ItemToUnavail(item).Some? <==>
              IsRecord(item) && exists d :: d != "" && Field(item, "day") == Some(JString(d))
    ensures ItemToUnavail(item).Some? ==>
              && ItemToUnavail(item).value.day != ""
              && Field(item, "day") == Some(JString(ItemToUnavail(item).value.day))
              && ItemToUnavail(item).value.slotIndexes == SlotsOf(item)
  {
    if IsRecord(item) && Field(item, "day").Some? && Field(item, "day").value.JString? {
      var d := Field(item, "day").value.s;
      assert d != "" ==> Field(item, "day") == Some(JString(d));
    }
  }

  /**
   * The slot filter keeps exactly the integer entries, in order: the k-th kept slot
   * is the number at the k-th integral position, and a position is kept exactly when
   * it holds an integer.
   */
  lemma IntegerSlotsExact(xs: seq<JsonValue>)
    ensures var r, idx := IntegerSlots(xs), KeptIndices(AsInteger, xs);
      && |r| == |idx| <= |xs|
      && StrictlyIncreasing(idx)
      && (forall k :: 0 <= k < |r| ==> xs[idx[k]] == JNumber(Int(r[k])))
      && (forall i :: 0 <= i < |xs| ==> (i in idx <==> xs[i].JNumber? && xs[i].n.Int?))
  {
    FilterMapAt(AsInteger, xs);
  }
}
