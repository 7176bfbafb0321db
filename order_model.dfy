/**
 * The order record of app/domain/models/order.py and its `items` column.
 *
 * The column holds the JSON text of the item list. JSON is modelled at the
 * level of JSON values: `DumpItems` is `json.dumps` of the list of
 * `{"product", "quantity"}` objects, `LoadItems` is `json.loads` followed
 * by reading the result back as `OrderItem`s (what the response schema
 * does). Turning a JSON value into characters and back is not modelled.
 */
module OrderModel {
  import opened Wrappers

  /** A JSON value, as `json.dumps` writes it and `json.loads` returns it (numbers are integers). */
  datatype Json =
    | JNull
    | JBool(b: bool)
    | JInt(n: int)
    | JString(s: string)
    | JArray(elems: seq<Json>)
    | JObject(members: seq<(string, Json)>)

  /** `OrderItem` of app/domain/schemas/order.py: a product name and a bare integer quantity. */
  datatype OrderItem = OrderItem(product: string, quantity: int)

  /** The status a new order gets when none is given. */
  const DefaultStatus: string := "pending"

  /**
   * A row of the `orders` table. `items` is the text column: `None` stands
   * for a NULL or empty column (both are falsy in Python), `Some(j)` for
   * the JSON text of `j`. `date` is a timestamp in seconds, `total` is in cents.
   */
  datatype Order = Order(id: int, date: int, client: string, items: Option<Json>, total: int, status: string) {

    /** `set_items`: store the JSON encoding of `xs`; only the `items` field changes. */
    function SetItems(xs: seq<OrderItem>): (o: Order)
      ensures o.items.Some? && LoadItems(o.items.value) == Some(xs)
      ensures o.(items := items) == this
    {
      RoundTrip(xs);
      this.(items := Some(DumpItems(xs)))
    }

    /** `get_items`: the decoded column, or an empty list when the column is empty or unset. */
    function GetItems(): (j: Json)
      ensures items.Some? ==> j == items.value
      ensures items.None? ==> LoadItems(j) == Some([])
    {
      if items.Some? then items.value else JArray([])
    }
  }

  /** A new row with the column defaults: status "pending" and the creation time as date. */
  function NewOrder(id: int, now: int, client: string, items: Option<Json>, total: int): (o: Order)
    ensures o.status == "pending" && o.date == now
    ensures o.id == id && o.client == client && o.items == items && o.total == total
  {
    Order(id, now, client, items, total, DefaultStatus)
  }

  /** The JSON object written for one item. */
  function ItemJson(x: OrderItem): (j: Json)
    ensures j.JObject?
    ensures Member(j.members, "product") == Some(JString(x.product))
    ensures Member(j.members, "quantity") == Some(JInt(x.quantity))
  {
    var ms := [("product", JString(x.product)), ("quantity", JInt(x.quantity))];
    assert ms[..1] == [("product", JString(x.product))];
    JObject(ms)
  }

  /** One JSON object per item, in item order. */
  function DumpList(xs: seq<OrderItem>): (es: seq<Json>)
    ensures |es| == |xs|
    ensures forall i | 0 <= i < |xs| :: es[i] == ItemJson(xs[i])
  {
    if xs == [] then [] else [ItemJson(xs[0])] + DumpList(xs[1..])
  }

  /** `json.dumps([{"product": ..., "quantity": ...} for item in items])`. */
  function DumpItems(xs: seq<OrderItem>): (j: Json)
    ensures j.JArray? && |j.elems| == |xs|
    ensures forall i | 0 <= i < |xs| :: j.elems[i] == ItemJson(xs[i])
  {
    JArray(DumpList(xs))
  }

  /** Position `i` holds the last member with key `k`. */
  ghost predicate LastWith(members: seq<(string, Json)>, k: string, i: int)
    requires 0 <= i < |members|
  {
    forall j | i < j < |members| :: members[j].0 != k
  }

  /** The value of key `k` in a JSON object; with duplicate keys the last one wins, as in `json.loads`. */
  function Member(members: seq<(string, Json)>, k: string): (r: Option<Json>)
    ensures r.None? <==> forall i | 0 <= i < |members| :: members[i].0 != k
    ensures r.Some? ==> exists i | 0 <= i < |members| :: members[i] == (k, r.value) && LastWith(members, k, i)
  {
    if members == [] then None
    else if members[|members| - 1].0 == k then Some(members[|members| - 1].1)
    else Member(members[..|members| - 1], k)
  }

  /** Read one JSON value back as an item: an object with a string "product" and an integer "quantity". */
  function LoadItem(j: Json): (r: Option<OrderItem>)
    ensures r.Some? <==>
      j.JObject? && Member(j.members, "product").Some? && Member(j.members, "product").value.JString?
      && Member(j.members, "quantity").Some? && Member(j.members, "quantity").value.JInt?
    ensures r.Some? ==>
      Member(j.members, "product") == Some(JString(r.value.product))
      && Member(j.members, "quantity") == Some(JInt(r.value.quantity))
  {
    match j
    case JObject(ms) =>
      (match (Member(ms, "product"), Member(ms, "quantity"))
       case (Some(JString(p)), Some(JInt(q))) => Some(OrderItem(p, q))
       case _ => None)
    case _ => None
  }

  /** Decode every element; fails as soon as one element is not an item. */
  function LoadList(es: seq<Json>): (r: Option<seq<OrderItem>>)
    ensures r.Some? <==> forall i | 0 <= i < |es| :: LoadItem(es[i]).Some?
    ensures r.Some? ==> |r.value| == |es|
    ensures r.Some? ==> forall i | 0 <= i < |es| :: LoadItem(es[i]) == Some(r.value[i])
  {
    if es == [] then Some([])
    else match (LoadItem(es[0]), LoadList(es[1..]))
      case (Some(x), Some(rest)) => Some([x] + rest)
      case _ => None
  }

  /** Read a JSON value back as an item list; `None` when it is not an array of items. */
  function LoadItems(j: Json): (r: Option<seq<OrderItem>>)
    ensures r.Some? <==> j.JArray? && forall i | 0 <= i < |j.elems| :: LoadItem(j.elems[i]).Some?
    ensures r.Some? ==> |r.value| == |j.elems|
    ensures r.Some? ==> forall i | 0 <= i < |j.elems| :: LoadItem(j.elems[i]) == Some(r.value[i])
  {
    match j
    case JArray(es) => LoadList(es)
    case _ => None
  }

  lemma ItemRoundTrip(x: OrderItem)
    ensures LoadItem(ItemJson(x)) == Some(x)
  {
  }

  lemma {:induction false} ListRoundTrip(xs: seq<OrderItem>)
    ensures LoadList(DumpList(xs)) == Some(xs)
  {
    if xs != [] {
      ItemRoundTrip(xs[0]);
      ListRoundTrip(xs[1..]);
      assert DumpList(xs)[1..] == DumpList(xs[1..]);
      assert [xs[0]] + xs[1..] == xs;
    }
  }

  /** Decoding undoes encoding: the stored item list reads back as exactly the input, in order. */
  lemma RoundTrip(xs: seq<OrderItem>)
    ensures LoadItems(DumpItems(xs)) == Some(xs)
  {
    ListRoundTrip(xs);
  }

  /** The encoding is injective: different item lists are stored as different JSON values. */
  lemma DumpInjective(xs: seq<OrderItem>, ys: seq<OrderItem>)
    requires DumpItems(xs) == DumpItems(ys)
    ensures xs == ys
  {
    RoundTrip(xs);
    RoundTrip(ys);
  }

  /** `get_items` after `set_items(xs)` reads back `xs`. */
  lemma SetThenGet(o: Order, xs: seq<OrderItem>)
    ensures LoadItems(o.SetItems(xs).GetItems()) == Some(xs)
  {
  }
}
