/**
 * The promo agent's price-drop check (src/promo-agent/app.py).
 *
 * The watchlist is a dictionary from product id to the last price seen, or
 * `None` before the first successful observation. One cycle walks the ids in
 * the dictionary's insertion order, fetches each product from the catalog,
 * reads `priceUsd.units` (default `"0"`) with `int()`, raises an alert when a
 * recorded price is strictly undercut, and writes the new price back. A failed
 * request or an unparsable price skips that id only.
 *
 * The catalog request is the parameter `fetch`; the printed alert is an
 * `Alert` value returned by the cycle.
 */
module PromoAgent {
  import opened Wrappers
  import PyInt

  /** The `priceUsd` object of a catalog product; `units` is the whole-dollar amount as text. */
  datatype PriceUsd = PriceUsd(units: Option<string>)

  /** The fields of a catalog product's JSON body that the agent reads. */
  datatype Product = Product(name: Option<string>, priceUsd: Option<PriceUsd>)

  /** Outcome of `GET {CATALOG_READER_URL}/products/{id}`: a body, or any `RequestException`. */
  datatype Fetch = RequestFailed | Fetched(product: Product)

  /** A price-drop alert: the product, the price recorded before and the price just seen. */
  datatype Alert = Alert(id: string, name: Option<string>, oldPrice: int, newPrice: int)

  /** Product id to last known price. */
  type Prices = map<string, Option<int>>

  /** The ids the watchlist is seeded with, in insertion order. */
  const SeedIds: seq<string> := ["OLJCESPC7Z", "66VCHSJNUP", "1YMWWN1N4O"]

  predicate Distinct(ids: seq<string>) {
    forall i, j :: 0 <= i < j < |ids| ==> ids[i] != ids[j]
  }

  /** Every id of `ids` has an entry in `prices`. */
  predicate Watched(ids: seq<string>, prices: Prices) {
    forall j :: 0 <= j < |ids| ==> ids[j] in prices
  }

  /** `product_data.get('priceUsd', {}).get('units', '0')`. */
  function UnitsText(p: Product): string {
    match p.priceUsd
    case None => "0"
    case Some(usd) => match usd.units case None => "0" case Some(u) => u
  }

  /** The current price read from a fetch; `None` when the request failed or `int()` raised `ValueError`. */
  function CurrentPrice(f: Fetch): Option<int> {
    match f
    case RequestFailed => None
    case Fetched(p) => PyInt.ParseInt(UnitsText(p))
  }

  /**
   * Reading the price fails exactly on a request error or on units text that
   * is not an integer literal (`ValueError`); no other failure is possible.
   */
  lemma PriceReadFails(f: Fetch)
    ensures CurrentPrice(f).None? <==> f.RequestFailed? || !PyInt.IsIntLiteral(UnitsText(f.product))
  {
  }

  /** A drop: a price was recorded and the current one is strictly lower. */
  predicate IsDrop(last: Option<int>, current: int) {
    last.Some? && current < last.value
  }

  /** One iteration of the loop: the new table and the alerts it raises for `id`. */
  function Visit(id: string, prices: Prices, fetch: string -> Fetch): (r: (Prices, seq<Alert>))
    requires id in prices
    ensures r.0.Keys == prices.Keys
  {
    var current := CurrentPrice(fetch(id));
    if current.None? then (prices, [])
    else
      var last := prices[id];
      var alerts := if IsDrop(last, current.value)
                    then [Alert(id, fetch(id).product.name, last.value, current.value)]
                    else [];
      (prices[id := current], alerts)
  }

  /** A cycle over `ids`, one `Visit` after the other, each seeing the table left by the previous ones. */
  function Cycle(ids: seq<string>, prices: Prices, fetch: string -> Fetch): (r: (Prices, seq<Alert>))
    requires Watched(ids, prices)
    ensures r.0.Keys == prices.Keys
  {
    if ids == [] then (prices, [])
    else
      var (p1, a1) := Cycle(ids[..|ids| - 1], prices, fetch);
      var (p2, a2) := Visit(ids[|ids| - 1], p1, fetch);
      (p2, a1 + a2)
  }

  /** One more iteration of the loop extends the cycle by one `Visit`. */
  lemma CycleNext(ids: seq<string>, i: nat, prices: Prices, fetch: string -> Fetch)
    requires Watched(ids, prices) && i < |ids|
    ensures Watched(ids[..i], prices) && Watched(ids[..i + 1], prices)
    ensures Cycle(ids[..i + 1], prices, fetch).0 == Visit(ids[i], Cycle(ids[..i], prices, fetch).0, fetch).0
    ensures Cycle(ids[..i + 1], prices, fetch).1
              == Cycle(ids[..i], prices, fetch).1 + Visit(ids[i], Cycle(ids[..i], prices, fetch).0, fetch).1
  {
    assert ids[..i + 1][..i] == ids[..i];
  }

  /** Reference definition of the table after a cycle: every visited id that was observed holds its current price. */
  function Observed(prices: Prices, ids: seq<string>, fetch: string -> Fetch): Prices {
    map k | k in prices ::
      if k in ids && CurrentPrice(fetch(k)).Some? then CurrentPrice(fetch(k)) else prices[k]
  }

  /** Reference definition of the alerts of a cycle: each id judged against the table from before the cycle. */
  function Drops(ids: seq<string>, prices: Prices, fetch: string -> Fetch): seq<Alert>
    requires Watched(ids, prices)
  {
    if ids == [] then []
    else Drops(ids[..|ids| - 1], prices, fetch) + Visit(ids[|ids| - 1], prices, fetch).1
  }

  /**
   * Because each id is written only in its own iteration, the sequential cycle
   * equals the snapshot reference: every id is compared with its price from
   * before the cycle, and the table ends up as `Observed`.
   */
  lemma {:induction false} CycleIsSnapshot(ids: seq<string>, prices: Prices, fetch: string -> Fetch)
    requires Distinct(ids)
    requires Watched(ids, prices)
    ensures Cycle(ids, prices, fetch).0 == Observed(prices, ids, fetch)
    ensures Cycle(ids, prices, fetch).1 == Drops(ids, prices, fetch)
  {
    if ids != [] {
      var init, last := ids[..|ids| - 1], ids[|ids| - 1];
      SplitLast(ids);
      CycleNext(ids, |ids| - 1, prices, fetch);
      assert ids[..|ids|] == ids;
      CycleIsSnapshot(init, prices, fetch);
      ObservedNext(prices, init, last, fetch);
      VisitAlertsLocal(last, Observed(prices, init, fetch), prices, fetch);
    }
  }

  /** Splitting off the last of distinct ids. */
  lemma SplitLast(ids: seq<string>)
    requires Distinct(ids) && ids != []
    ensures Distinct(ids[..|ids| - 1])
    ensures ids[|ids| - 1] !in ids[..|ids| - 1]
    ensures ids == ids[..|ids| - 1] + [ids[|ids| - 1]]
  {
  }

  /** Observing one more id, not observed before, is one more `Visit`. */
  lemma ObservedNext(prices: Prices, init: seq<string>, last: string, fetch: string -> Fetch)
    requires last in prices && last !in init
    ensures Observed(prices, init + [last], fetch) == Visit(last, Observed(prices, init, fetch), fetch).0
  {
    var ids := init + [last];
    assert forall k :: k in ids <==> k in init || k == last;
  }

  /** The alerts of a visit depend only on the visited id's entry. */
  lemma VisitAlertsLocal(id: string, p: Prices, q: Prices, fetch: string -> Fetch)
    requires id in p && id in q && p[id] == q[id]
    ensures Visit(id, p, fetch).1 == Visit(id, q, fetch).1
  {
  }

  /** A cycle never adds or removes ids, and leaves the ids it does not visit untouched. */
  lemma {:induction false} CycleKeepsKeys(ids: seq<string>, prices: Prices, fetch: string -> Fetch)
    requires Watched(ids, prices)
    ensures Cycle(ids, prices, fetch).0.Keys == prices.Keys
    ensures forall k :: k in prices && k !in ids ==> Cycle(ids, prices, fetch).0[k] == prices[k]
  {
    if ids != [] {
      CycleKeepsKeys(ids[..|ids| - 1], prices, fetch);
    }
  }

  /** After a successful fetch and parse the stored price is the current one, drop or not; otherwise it is unchanged. */
  lemma StoredPrice(ids: seq<string>, prices: Prices, fetch: string -> Fetch, id: string)
    requires Distinct(ids)
    requires Watched(ids, prices)
    requires id in ids
    ensures CurrentPrice(fetch(id)).Some? ==> Cycle(ids, prices, fetch).0[id] == CurrentPrice(fetch(id))
    ensures CurrentPrice(fetch(id)).None? ==> Cycle(ids, prices, fetch).0[id] == prices[id]
  {
    CycleIsSnapshot(ids, prices, fetch);
  }

  /** Every alert of `Drops` names a visited id whose recorded price was strictly undercut by the price just read. */
  lemma {:induction false} DropsAreDrops(ids: seq<string>, prices: Prices, fetch: string -> Fetch, a: Alert)
    requires Watched(ids, prices)
    requires a in Drops(ids, prices, fetch)
    ensures a.id in ids
    ensures prices[a.id] == Some(a.oldPrice)
    ensures CurrentPrice(fetch(a.id)) == Some(a.newPrice)
    ensures a.newPrice < a.oldPrice
    ensures a.name == fetch(a.id).product.name
  {
    var init, last := ids[..|ids| - 1], ids[|ids| - 1];
    if a in Drops(init, prices, fetch) {
      DropsAreDrops(init, prices, fetch, a);
    }
  }

  /** Each visited id whose recorded price was strictly undercut has its alert in `Drops`. */
  lemma {:induction false} DropsComplete(ids: seq<string>, prices: Prices, fetch: string -> Fetch, id: string)
    requires Watched(ids, prices)
    requires id in ids
    requires CurrentPrice(fetch(id)).Some? && IsDrop(prices[id], CurrentPrice(fetch(id)).value)
    ensures Alert(id, fetch(id).product.name, prices[id].value, CurrentPrice(fetch(id)).value) in Drops(ids, prices, fetch)
  {
    var init, last := ids[..|ids| - 1], ids[|ids| - 1];
    if id != last {
      assert id in init;
      DropsComplete(init, prices, fetch, id);
    }
  }

  /** An id raises at most one alert per cycle. */
  lemma {:induction false} DropsOnePerId(ids: seq<string>, prices: Prices, fetch: string -> Fetch)
    requires Distinct(ids)
    requires Watched(ids, prices)
    ensures Distinct(AlertIds(Drops(ids, prices, fetch)))
  {
    if ids != [] {
      var init, last := ids[..|ids| - 1], ids[|ids| - 1];
      assert Distinct(init);
      DropsOnePerId(init, prices, fetch);
      var before := Drops(init, prices, fetch);
      forall a | a in before ensures a.id != last {
        DropsAreDrops(init, prices, fetch, a);
      }
      AlertIdsAppend(before, Visit(last, prices, fetch).1);
    }
  }

  function AlertIds(alerts: seq<Alert>): (r: seq<string>)
    ensures |r| == |alerts|
    ensures forall i :: 0 <= i < |r| ==> r[i] == alerts[i].id
  {
    if alerts == [] then [] else [alerts[0].id] + AlertIds(alerts[1..])
  }

  lemma AlertIdsAppend(a: seq<Alert>, b: seq<Alert>)
    ensures AlertIds(a + b) == AlertIds(a) + AlertIds(b)
  {
  }

  /**
   * An alert for `id` fires in a cycle if and only if a price was already
   * recorded for it and the price just read is strictly lower; the alert
   * carries the id, the product name, the old and the new price.
   */
  lemma AlertIffDrop(ids: seq<string>, prices: Prices, fetch: string -> Fetch, id: string)
    requires Distinct(ids)
    requires Watched(ids, prices)
    requires id in ids
    ensures (exists a :: a in Cycle(ids, prices, fetch).1 && a.id == id)
            <==> CurrentPrice(fetch(id)).Some? && IsDrop(prices[id], CurrentPrice(fetch(id)).value)
    ensures forall a :: a in Cycle(ids, prices, fetch).1 && a.id == id ==>
              a == Alert(id, fetch(id).product.name, prices[id].value, CurrentPrice(fetch(id)).value)
  {
    CycleIsSnapshot(ids, prices, fetch);
    var alerts := Cycle(ids, prices, fetch).1;
    forall a | a in alerts
      ensures a.id in ids
      ensures prices[a.id] == Some(a.oldPrice) && CurrentPrice(fetch(a.id)) == Some(a.newPrice)
      ensures a.newPrice < a.oldPrice && a.name == fetch(a.id).product.name
    {
      DropsAreDrops(ids, prices, fetch, a);
    }
    if CurrentPrice(fetch(id)).Some? && IsDrop(prices[id], CurrentPrice(fetch(id)).value) {
      DropsComplete(ids, prices, fetch, id);
    }
  }

  /** The first observation of an id (no price recorded) never alerts, and records the price just read. */
  lemma FirstObservation(ids: seq<string>, prices: Prices, fetch: string -> Fetch, id: string)
    requires Distinct(ids)
    requires Watched(ids, prices)
    requires id in ids && prices[id] == None
    ensures forall a :: a in Cycle(ids, prices, fetch).1 ==> a.id != id
    ensures Cycle(ids, prices, fetch).0[id] == CurrentPrice(fetch(id))
  {
    AlertIffDrop(ids, prices, fetch, id);
    StoredPrice(ids, prices, fetch, id);
  }

  /**
   * A failed request or unparsable price for `id` is as if `id` were not
   * watched in this cycle: its price stays, it raises nothing, and every other
   * id is processed exactly as before.
   */
  lemma SkippedIdIsIsolated(ids: seq<string>, prices: Prices, fetch: string -> Fetch, i: nat)
    requires Distinct(ids)
    requires Watched(ids, prices)
    requires i < |ids| && CurrentPrice(fetch(ids[i])).None?
    ensures Cycle(ids, prices, fetch) == Cycle(ids[..i] + ids[i + 1..], prices, fetch)
  {
    var rest := ids[..i] + ids[i + 1..];
    RemoveKeepsDistinct(ids, i);
    CycleIsSnapshot(ids, prices, fetch);
    CycleIsSnapshot(rest, prices, fetch);
    ObservedSkip(ids, prices, fetch, i);
    DropsSkip(ids, prices, fetch, i);
  }

  lemma RemoveKeepsDistinct(ids: seq<string>, i: nat)
    requires Distinct(ids) && i < |ids|
    ensures Distinct(ids[..i] + ids[i + 1..])
    ensures forall k :: k in ids <==> k in ids[..i] + ids[i + 1..] || k == ids[i]
  {
    var rest := ids[..i] + ids[i + 1..];
    forall m, n | 0 <= m < n < |rest| ensures rest[m] != rest[n] {
      var m' := if m < i then m else m + 1;
      var n' := if n < i then n else n + 1;
      assert rest[m] == ids[m'] && rest[n] == ids[n'];
    }
    assert ids == ids[..i] + [ids[i]] + ids[i + 1..];
  }

  lemma ObservedSkip(ids: seq<string>, prices: Prices, fetch: string -> Fetch, i: nat)
    requires i < |ids| && CurrentPrice(fetch(ids[i])).None?
    requires forall k :: k in ids <==> k in ids[..i] + ids[i + 1..] || k == ids[i]
    ensures Observed(prices, ids, fetch) == Observed(prices, ids[..i] + ids[i + 1..], fetch)
  {
  }

  lemma {:induction false} DropsSkip(ids: seq<string>, prices: Prices, fetch: string -> Fetch, i: nat)
    requires Watched(ids, prices)
    requires i < |ids| && CurrentPrice(fetch(ids[i])).None?
    ensures Drops(ids, prices, fetch) == Drops(ids[..i] + ids[i + 1..], prices, fetch)
  {
    var init, last := ids[..|ids| - 1], ids[|ids| - 1];
    var rest := ids[..i] + ids[i + 1..];
    if i == |ids| - 1 {
      assert rest == init;
    } else {
      var restInit := init[..i] + init[i + 1..];
      assert rest == restInit + [last];
      DropsSkip(init, prices, fetch, i);
      DropsAppend(restInit, last, prices, fetch);
    }
  }

  /** The drops of a list with one more id are the old drops followed by that id's visit. */
  lemma DropsAppend(ids: seq<string>, id: string, prices: Prices, fetch: string -> Fetch)
    requires Watched(ids + [id], prices)
    ensures Watched(ids, prices) && id in prices
    ensures Drops(ids + [id], prices, fetch) == Drops(ids, prices, fetch) + Visit(id, prices, fetch).1
  {
    assert (ids + [id])[|ids|] == id;
    assert (ids + [id])[..|ids|] == ids;
  }

  /**
   * A product body without `priceUsd`, or whose `priceUsd` has no `units`,
   * is not an error: it reads as price 0.
   */
  lemma MissingPriceReadsAsZero(p: Product)
    requires p.priceUsd.None? || p.priceUsd.value.units.None?
    ensures CurrentPrice(Fetched(p)) == Some(0)
  {
    PyInt.ParseZero();
  }

  /**
   * Because a missing price reads as 0, a product that loses its price field
   * after a positive price was recorded raises a drop alert down to 0, and 0
   * is stored.
   */
  lemma MissingPriceAlertsDropToZero(ids: seq<string>, prices: Prices, fetch: string -> Fetch, id: string, last: int)
    requires Distinct(ids)
    requires Watched(ids, prices)
    requires id in ids && prices[id] == Some(last) && last > 0
    requires fetch(id).Fetched?
    requires fetch(id).product.priceUsd.None? || fetch(id).product.priceUsd.value.units.None?
    ensures Alert(id, fetch(id).product.name, last, 0) in Cycle(ids, prices, fetch).1
    ensures Cycle(ids, prices, fetch).0[id] == Some(0)
  {
    MissingPriceReadsAsZero(fetch(id).product);
    AlertIffDrop(ids, prices, fetch, id);
    StoredPrice(ids, prices, fetch, id);
  }

  /** A catalog price written as canonical decimal text is read back exactly. */
  lemma UnitsRoundTrip(name: Option<string>, price: int)
    ensures CurrentPrice(Fetched(Product(name, Some(PriceUsd(Some(PyInt.ShowInt(price))))))) == Some(price)
  {
    PyInt.ParseShowRoundTrip(price);
  }

  /** A catalog that quotes the given units text for every product except `"C"`, whose request fails. */
  function Quoting(units: string): string -> Fetch {
    (id: string) => if id == "C" then RequestFailed else Fetched(Product(None, Some(PriceUsd(Some(units)))))
  }

  lemma {:induction false} TwoIdCycle(prices: Prices, fetch: string -> Fetch)
    requires "A" in prices && "C" in prices
    requires CurrentPrice(fetch("C")).None? && CurrentPrice(fetch("A")).Some?
    ensures Cycle(["A", "C"], prices, fetch).0 == prices["A" := CurrentPrice(fetch("A"))]
    ensures Cycle(["A", "C"], prices, fetch).1 == Visit("A", prices, fetch).1
  {
    assert ["A", "C"][..1] == ["A"] && ["A"][..0] == [];
    assert Cycle([], prices, fetch) == (prices, []);
    assert [] + Visit("A", prices, fetch).1 == Visit("A", prices, fetch).1;
    assert Cycle(["A"], prices, fetch) == Visit("A", prices, fetch);
    var p1 := Visit("A", prices, fetch).0;
    assert Cycle(["A", "C"], prices, fetch) == (Visit("C", p1, fetch).0, Visit("A", prices, fetch).1 + Visit("C", p1, fetch).1);
  }

  /**
   * Three cycles over a watchlist holding A and C, where every request for C
   * fails: 100 is recorded for A without an alert, 90 raises the alert
   * (A, 100, 90) and is recorded, a second 90 raises nothing; C keeps no
   * price throughout.
   */
  lemma PriceDropScenario()
    ensures Cycle(["A", "C"], map["A" := None, "C" := None], Quoting("100"))
              == (map["A" := Some(100), "C" := None], [])
    ensures Cycle(["A", "C"], map["A" := Some(100), "C" := None], Quoting("90"))
              == (map["A" := Some(90), "C" := None], [Alert("A", None, 100, 90)])
    ensures Cycle(["A", "C"], map["A" := Some(90), "C" := None], Quoting("90"))
              == (map["A" := Some(90), "C" := None], [])
  {
    assert PyInt.ParseInt("100") == Some(100) by {
      assert "100"[..2] == "10" && "10"[..1] == "1" && "1"[..0] == [];
    }
    assert PyInt.ParseInt("90") == Some(90) by {
      assert "90"[..1] == "9" && "9"[..0] == [];
    }
    assert CurrentPrice(Quoting("100")("A")) == Some(100);
    assert CurrentPrice(Quoting("90")("A")) == Some(90);
    TwoIdCycle(map["A" := None, "C" := None], Quoting("100"));
    assert Visit("A", map["A" := None, "C" := None], Quoting("100")).1 == [];
    assert map["A" := None, "C" := None]["A" := Some(100)] == map["A" := Some(100), "C" := None];
    TwoIdCycle(map["A" := Some(100), "C" := None], Quoting("90"));
    assert Visit("A", map["A" := Some(100), "C" := None], Quoting("90")).1 == [Alert("A", None, 100, 90)];
    assert map["A" := Some(100), "C" := None]["A" := Some(90)] == map["A" := Some(90), "C" := None];
    TwoIdCycle(map["A" := Some(90), "C" := None], Quoting("90"));
    assert Visit("A", map["A" := Some(90), "C" := None], Quoting("90")).1 == [];
    assert map["A" := Some(90), "C" := None]["A" := Some(90)] == map["A" := Some(90), "C" := None];
  }

  /** The watchlist: the `WATCHED_PRODUCTS` dictionary, with its insertion order. */
  class Watchlist {
    var prices: Prices
    var order: seq<string>

    ghost predicate Valid()
      reads this
    {
      && Distinct(order)
      && (forall k :: k in prices <==> k in order)
    }

    /** The seeded table: three products, no price recorded yet. */
    constructor ()
      ensures Valid()
      ensures order == SeedIds
      ensures prices == map k | k in SeedIds :: None
    {
      order := SeedIds;
      prices := map k | k in SeedIds :: None;
    }

    /** `check_product_prices`: one cycle over the watchlist, returning the alerts in the order raised. */
    method CheckProductPrices(fetch: string -> Fetch) returns (alerts: seq<Alert>)
      requires Valid()
      modifies this`prices
      ensures Valid()
      ensures prices.Keys == old(prices).Keys
      ensures prices == Cycle(order, old(prices), fetch).0
      ensures alerts == Cycle(order, old(prices), fetch).1
    {
      ghost var start := prices;
      var ids := order;
      alerts := [];
      var i := 0;
      assert Watched(ids, start);
      while i < |ids|
        invariant 0 <= i <= |ids|
        invariant Watched(ids, start)
        invariant prices == Cycle(ids[..i], start, fetch).0
        invariant alerts == Cycle(ids[..i], start, fetch).1
      {
        CycleNext(ids, i, start, fetch);
        var raised := CheckProduct(ids[i], fetch);
        alerts := alerts + raised;
        i := i + 1;
      }
      assert ids[..i] == ids;
    }

    /**
     * The `try` block for one product: read the current price; on a drop
     * from a recorded price raise an alert; record the current price. A
     * failed request or unparsable price changes nothing.
     */
    method CheckProduct(productId: string, fetch: string -> Fetch) returns (raised: seq<Alert>)
      requires productId in prices
      modifies this`prices
      ensures (prices, raised) == Visit(productId, old(prices), fetch)
    {
      raised := [];
      var lastPrice := prices[productId];
      var currentPrice := CurrentPrice(fetch(productId));
      if currentPrice.Some? {
        var current := currentPrice.value;
        if lastPrice.Some? && current < lastPrice.value {
          raised := [Alert(productId, fetch(productId).product.name, lastPrice.value, current)];
        }
        prices := prices[productId := Some(current)];
      }
    }
  }
}
