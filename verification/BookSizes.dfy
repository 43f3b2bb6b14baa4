/** The indices of an order book never reach their load caps, and how a new order takes its place. */
module BookSizes {
  import opened Matcher
  import opened BookRep
  import opened BookSafety

  // An injective map into 0..n has at most n keys.
  lemma {:induction false} InjectiveSize<K>(m: map<K, nat>, n: nat)
    requires forall k :: k in m ==> m[k] < n
    requires forall j, k :: j in m && k in m && m[j] == m[k] ==> j == k
    ensures |m| <= n
    decreases n
  {
    if exists k :: k in m && m[k] == n - 1 {
      var k :| k in m && m[k] == n - 1;
      var t := m - {k};
      InjectiveSize(t, n - 1);
      assert m.Keys == t.Keys + {k};
      assert |m| == |m.Keys| == |t.Keys| + 1;
    } else if n > 0 {
      InjectiveSize(m, n - 1);
    } else {
      assert m.Keys == {} by { assert forall k :: k !in m; }
      assert |m| == |m.Keys|;
    }
  }

  // One index entry per order node.
  lemma IdsSize(r: Rep)
    requires Inv(r)
    ensures |r.ids| <= |r.on|
  {
    hide Structure;
    var m: map<nat, nat> := map id | id in r.ids :: r.ids[id].nodeIdx;
    forall id | id in r.ids ensures r.ids[id].nodeIdx < |r.on| && r.on[r.ids[id].nodeIdx].order.id == id {
      assert Stored(r.on, r.queues, r.prices, r.ids[id], id);
    }
    InjectiveSize(m, |r.on|);
    assert m.Keys == r.ids.Keys;
    assert |m| == |m.Keys| == |r.ids|;
  }

  // One price per level node.
  lemma PricesSize(r: Rep)
    requires Structure(r)
    ensures |r.prices| <= |r.ln|
  {
    hide Ladders, Queues, Homes;
    InjectiveSize(r.prices, |r.ln|);
  }

  // One client entry per live order.
  lemma ClientsSize(q: seq<Resting>, clients: map<ClientKey, nat>)
    requires ClientsLive(q, clients)
    ensures |clients| <= |q|
  {
    forall k | k in clients ensures exists j :: 0 <= j < |q| && KeyOf(q[j]) == k {
      var r :| r in q && r.order.id == clients[k] && KeyOf(r) == k;
      var j :| 0 <= j < |q| && q[j] == r;
      assert KeyOf(q[j]) == k;
    }
    var m := map k | k in clients :: Position(q, k);
    InjectiveSize(m, |q|);
    assert m.Keys == clients.Keys;
    assert |m| == |m.Keys| == |clients|;
  }

  ghost function Position(q: seq<Resting>, k: ClientKey): (j: nat)
    requires exists j :: 0 <= j < |q| && KeyOf(q[j]) == k
    ensures j < |q| && KeyOf(q[j]) == k
  {
    var j: nat :| 0 <= j < |q| && KeyOf(q[j]) == k;
    j
  }

  // Where Place puts an order: at the level with its price, or in a new level between its neighbours.
  lemma {:induction false} PlaceAt(levels: seq<Level>, k: nat, r: Resting, isSell: bool)
    requires Sorted(levels, isSell) && k < |levels| && levels[k].price == r.order.price
    ensures Place(levels, r, isSell) == levels[k := levels[k].(orders := levels[k].orders + [r])]
    ensures HasPrice(levels, r.order.price)
  {
    if k > 0 {
      assert Better(isSell, levels[0].price, levels[k].price);
      PlaceAt(levels[1..], k - 1, r, isSell);
    }
  }

  lemma {:induction false} PlaceNew(levels: seq<Level>, k: nat, r: Resting, isSell: bool)
    requires k <= |levels|
    requires forall j :: 0 <= j < k ==> Better(isSell, levels[j].price, r.order.price)
    requires k < |levels| ==> Better(isSell, r.order.price, levels[k].price)
    ensures Place(levels, r, isSell) == levels[..k] + [Level(r.order.price, [r])] + levels[k..]
  {
    if k > 0 {
      PlaceNew(levels[1..], k - 1, r, isSell);
      assert levels[..k] == [levels[0]] + levels[1..][..k - 1];
      assert levels[k..] == levels[1..][k - 1..];
    }
  }
}
