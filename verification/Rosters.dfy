/** Rosters: the indexed list of contacts, the client that keeps it up to date from results and pushes,
    and its XML form (pyxmpp2/roster.py). Items are compared by JID value. */
module Rosters {
  import opened Text
  import opened Jid

  datatype Item = Item(jid: JID, name: Option<string>, groups: set<string>, subscription: Option<string>,
                       ask: Option<string>, approved: bool, duplicateGroup: bool)

  // ---- The roster as an insertion-ordered map

  ghost predicate DistinctJids(items: seq<Item>) {
    forall i, j :: 0 <= i < j < |items| ==> items[i].jid != items[j].jid
  }

  ghost predicate HasJid(items: seq<Item>, jid: JID) {
    exists i :: 0 <= i < |items| && items[i].jid == jid
  }

  function Remove(items: seq<Item>, jid: JID): seq<Item> {
    if items == [] then []
    else if items[|items| - 1].jid == jid then Remove(items[..|items| - 1], jid)
    else Remove(items[..|items| - 1], jid) + [items[|items| - 1]]
  }

  /** Replacing an item moves it to the end. */
  function Put(items: seq<Item>, item: Item): seq<Item> {
    Remove(items, item.jid) + [item]
  }

  lemma {:induction false} RemoveAbsent(items: seq<Item>, jid: JID)
    requires !HasJid(items, jid)
    ensures Remove(items, jid) == items
  {
    if items != [] {
      assert items[|items| - 1].jid != jid;
      var before := items[..|items| - 1];
      assert forall i :: 0 <= i < |before| ==> before[i] == items[i] && items[i].jid != jid;
      RemoveAbsent(before, jid);
    }
  }

  lemma {:induction false} RemoveAt(items: seq<Item>, k: nat)
    requires DistinctJids(items) && k < |items|
    ensures Remove(items, items[k].jid) == items[..k] + items[k + 1..]
  {
    var before := items[..|items| - 1];
    if k == |items| - 1 {
      RemoveAbsent(before, items[k].jid);
      assert items[..k] + items[k + 1..] == before;
    } else {
      RemoveAt(before, k);
      assert before[k] == items[k];
      assert items[..k] + items[k + 1..] == (before[..k] + before[k + 1..]) + [items[|items| - 1]];
    }
  }

  lemma {:induction false} RemoveKeeps(items: seq<Item>, jid: JID)
    ensures !HasJid(Remove(items, jid), jid)
    ensures forall j :: j != jid ==> (HasJid(Remove(items, jid), j) <==> HasJid(items, j))
    ensures forall x <- Remove(items, jid) :: x in items && x.jid != jid
    ensures DistinctJids(items) ==> DistinctJids(Remove(items, jid))
  {
    if items != [] {
      var before, last := items[..|items| - 1], items[|items| - 1];
      RemoveKeeps(before, jid);
      HasJidSnoc(before, last);
      assert items == before + [last];
      HasJidSnoc(Remove(before, jid), last);
      if DistinctJids(items) {
        assert forall i :: 0 <= i < |before| ==> before[i] == items[i];
        assert !HasJid(before, last.jid);
        assert last.jid != jid ==> !HasJid(Remove(before, jid), last.jid);
      }
    }
  }

  lemma HasJidSnoc(items: seq<Item>, item: Item)
    ensures forall j :: HasJid(items + [item], j) <==> HasJid(items, j) || j == item.jid
  {
    var more := items + [item];
    forall j ensures HasJid(more, j) <==> HasJid(items, j) || j == item.jid {
      if HasJid(items, j) {
        var i :| 0 <= i < |items| && items[i].jid == j;
        assert more[i].jid == j;
      }
      if j == item.jid {
        assert more[|items|].jid == j;
      }
      if HasJid(more, j) {
        var i :| 0 <= i < |more| && more[i].jid == j;
        assert i < |items| ==> items[i].jid == j;
      }
    }
  }

  lemma PutKeeps(items: seq<Item>, item: Item)
    requires DistinctJids(items)
    ensures DistinctJids(Put(items, item))
    ensures forall j :: HasJid(Put(items, item), j) <==> HasJid(items, j) || j == item.jid
    ensures forall x <- Put(items, item) :: x == item || x in items
  {
    RemoveKeeps(items, item.jid);
    HasJidSnoc(Remove(items, item.jid), item);
    assert forall i :: 0 <= i < |Remove(items, item.jid)| ==> Remove(items, item.jid)[i].jid != item.jid;
  }

  // ---- The Roster object

  /** `jids` maps each JID exactly to its position in `items`. */
  ghost predicate Indexes(jids: map<JID, int>, items: seq<Item>) {
    && DistinctJids(items)
    && (forall j :: j in jids <==> HasJid(items, j))
    && forall i :: 0 <= i < |items| ==> items[i].jid in jids && jids[items[i].jid] == i
  }

  class Roster {
    var items: seq<Item>
    var jids: map<JID, int>
    const version: Option<string>

    ghost predicate Valid()
      reads this
    {
      Indexes(jids, items)
    }

    /** The fields as the constructor fills them; MakeRoster is the constructor with its checks. */
    constructor (items: seq<Item>, jids: map<JID, int>, version: Option<string>)
      requires Indexes(jids, items)
      ensures Valid() && this.items == items && this.version == version
    {
      this.items, this.jids, this.version := items, jids, version;
    }

    /** add_item; raised is the ValueError on a conflict. */
    method AddItem(item: Item, replace: bool) returns (raised: bool)
      requires Valid()
      modifies this
      ensures Valid() && raised == (!replace && HasJid(old(items), item.jid))
      ensures items == if raised then old(items) else Put(old(items), item)
    {
      if item.jid in jids {
        if !replace {
          return true;
        }
        var missing := RemoveItem(item.jid);
      } else {
        RemoveAbsent(items, item.jid);
      }
      RemoveKeeps(old(items), item.jid);
      IndexAppended(items, jids, item);
      var index := |items|;
      items := items + [item];
      jids := jids[item.jid := index];
      return false;
    }

    /** remove_item; missing is the KeyError. */
    method RemoveItem(jid: JID) returns (missing: bool)
      requires Valid()
      modifies this
      ensures Valid() && missing == !HasJid(old(items), jid) && items == Remove(old(items), jid)
    {
      if jid !in jids {
        RemoveAbsent(items, jid);
        return true;
      }
      assert HasJid(items, jid);
      var index := jids[jid];
      jids := ShiftDown(items, jids, index);
      RemoveAt(items, index);
      IndexAfterRemoval(items, jids, index);
      jids := jids - {jid};
      items := items[..index] + items[index + 1..];
      return false;
    }

    /** The loop of remove_item: it also shifts the entry that is about to go. */
    static method ShiftDown(items: seq<Item>, jids: map<JID, int>, index: int) returns (shifted: map<JID, int>)
      requires Indexes(jids, items) && 0 <= index < |items|
      ensures shifted.Keys == jids.Keys
      ensures forall m :: 0 <= m < |items| ==> shifted[items[m].jid] == if index <= m then m - 1 else m
    {
      shifted := jids;
      SizeOfIndex(items, jids);
      for i := index to |jids|
        invariant shifted.Keys == jids.Keys
        invariant forall m :: 0 <= m < |items| ==> shifted[items[m].jid] == if index <= m < i then m - 1 else m
      {
        var key := items[i].jid;
        shifted := shifted[key := shifted[key] - 1];
      }
    }
  }

  lemma IndexAppended(items: seq<Item>, jids: map<JID, int>, item: Item)
    requires Indexes(jids, items) && !HasJid(items, item.jid)
    ensures Indexes(jids[item.jid := |items|], items + [item])
  {
    HasJidSnoc(items, item);
    assert forall i :: 0 <= i < |items| ==> items[i].jid != item.jid;
  }

  lemma IndexAfterRemoval(items: seq<Item>, shifted: map<JID, int>, k: nat)
    requires DistinctJids(items) && (forall j :: j in shifted <==> HasJid(items, j)) && k < |items|
    requires forall m :: 0 <= m < |items| ==>
      items[m].jid in shifted && shifted[items[m].jid] == if k <= m then m - 1 else m
    ensures Indexes(shifted - {items[k].jid}, items[..k] + items[k + 1..])
  {
    RemoveAt(items, k);
    RemoveKeeps(items, items[k].jid);
    var left := items[..k] + items[k + 1..];
    forall i | 0 <= i < |left| ensures left[i] == items[if i < k then i else i + 1] {
    }
  }

  lemma SizeOfIndex(items: seq<Item>, jids: map<JID, int>)
    requires DistinctJids(items) && (forall j :: j in jids <==> HasJid(items, j))
    ensures |jids| == |items|
  {
    SetOfJids(items, jids.Keys);
    assert |jids| == |jids.Keys|;
  }

  lemma {:induction false} SetOfJids(items: seq<Item>, keys: set<JID>)
    requires DistinctJids(items) && (forall j :: j in keys <==> HasJid(items, j))
    ensures |keys| == |items|
  {
    if items == [] {
      assert forall j :: j in keys ==> HasJid(items, j);
    } else {
      var before, last := items[..|items| - 1], items[|items| - 1];
      assert items == before + [last];
      HasJidSnoc(before, last);
      assert last.jid in keys;
      assert !HasJid(before, last.jid);
      SetOfJids(before, keys - {last.jid});
    }
  }

  const REMOVE := Some("remove")

  ghost predicate Storable(items: seq<Item>) {
    DistinctJids(items) && forall x <- items :: x.subscription != REMOVE
  }

  /** Roster(items, version): None is the ValueError for a "remove" item or a duplicate JID. */
  method MakeRoster(items: seq<Item>, version: Option<string>) returns (r: Option<Roster>)
    ensures r.Some? <==> Storable(items)
    ensures r.Some? ==> fresh(r.value) && r.value.Valid() && r.value.items == items && r.value.version == version
  {
    for n := 0 to |items|
      invariant forall i :: 0 <= i < n ==> items[i].subscription != REMOVE
    {
      if items[n].subscription == REMOVE {
        return None;
      }
    }
    var jids: map<JID, int> := map[];
    for n := 0 to |items|
      invariant |jids| <= n && (|jids| == n <==> DistinctJids(items[..n]))
      invariant forall j :: j in jids <==> HasJid(items[..n], j)
      invariant DistinctJids(items[..n]) ==> Indexes(jids, items[..n])
    {
      assert items[..n + 1] == items[..n] + [items[n]];
      HasJidSnoc(items[..n], items[n]);
      IndexGrows(items[..n], items[n], jids, n);
      if DistinctJids(items[..n + 1]) {
        IndexAppended(items[..n], jids, items[n]);
      }
      jids := jids[items[n].jid := n];
    }
    assert items[..|items|] == items;
    if |items| != |jids| {
      return None;
    }
    var made := new Roster(items, jids, version);
    return Some(made);
  }

  lemma IndexGrows(items: seq<Item>, item: Item, jids: map<JID, int>, n: nat)
    requires |items| == n && |jids| <= n && (|jids| == n <==> DistinctJids(items))
    requires forall j :: j in jids <==> HasJid(items, j)
    ensures var more := jids[item.jid := n];
      && |more| <= n + 1 && (|more| == n + 1 <==> DistinctJids(items + [item]))
      && (DistinctJids(items + [item]) ==> DistinctJids(items) && !HasJid(items, item.jid))
  {
    var more := jids[item.jid := n];
    var all := items + [item];
    if item.jid in jids {
      assert more.Keys == jids.Keys;
      var i :| 0 <= i < n && items[i].jid == item.jid;
      assert all[i].jid == all[n].jid;
      assert |more| == |more.Keys| == |jids.Keys| == |jids|;
    } else {
      assert more.Keys == jids.Keys + {item.jid};
      assert |more| == |more.Keys| == |jids.Keys| + 1 == |jids| + 1;
      assert forall i :: 0 <= i < n ==> items[i].jid != item.jid;
      if DistinctJids(all) {
        assert forall i, j :: 0 <= i < j < n ==> all[i].jid != all[j].jid && all[i] == items[i] && all[j] == items[j];
      }
    }
  }
}
