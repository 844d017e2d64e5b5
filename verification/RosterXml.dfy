/** The XML form of rosters, saving and loading (pyxmpp2/roster.py). */
module RosterXml {
  import opened Text
  import opened Xml
  import opened Jid
  import opened Rosters
  import opened RosterSync

  const QUERY_TAG := "{jabber:iq:roster}query"
  const ITEM_TAG := "{jabber:iq:roster}item"
  const GROUP_TAG := "{jabber:iq:roster}group"

  // ---- Encoding

  function ItemAttrs(item: Item): seq<Attr> {
    var a1 := [Attr("jid", AsUnicode(item.jid))];
    var a2 := Maybe(a1, item.name.Some?, Attr("name", OrEmpty(item.name)));
    var a3 := Maybe(a2, item.subscription.Some?, Attr("subscription", OrEmpty(item.subscription)));
    var a4 := Maybe(a3, OrEmpty(item.ask) != "", Attr("ask", OrEmpty(item.ask)));
    Maybe(a4, item.approved, Attr("approved", "true"))
  }

  function GroupElement(group: string): Element {
    Element(GROUP_TAG, [], group, [], "")
  }

  function GroupElements(groups: seq<string>): (r: seq<Element>)
    ensures |r| == |groups| && forall i :: 0 <= i < |groups| ==> r[i] == GroupElement(groups[i])
  {
    seq(|groups|, i requires 0 <= i < |groups| => GroupElement(groups[i]))
  }

  /** RosterItem.as_xml, with the groups in the order the set yields them. */
  function ItemElement(item: Item, order: seq<string>): Element {
    Element(ITEM_TAG, ItemAttrs(item), "", GroupElements(order), "")
  }

  ghost predicate Enumerates(order: seq<string>, groups: set<string>) {
    (forall i, j :: 0 <= i < j < |order| ==> order[i] != order[j]) && forall g :: g in order <==> g in groups
  }

  function ItemElements(items: seq<Item>, orders: seq<seq<string>>): seq<Element>
    requires |orders| == |items|
  {
    if items == [] then [] else [ItemElement(items[0], orders[0])] + ItemElements(items[1..], orders[1..])
  }

  /** RosterPayload.as_xml */
  function RosterElement(held: Held, orders: seq<seq<string>>): Element
    requires |orders| == |held.items|
  {
    Element(QUERY_TAG, Maybe([], held.version.Some?, Attr("ver", OrEmpty(held.version))), "",
            ItemElements(held.items, orders), "")
  }

  /** The whitespace save_roster adds. */
  function PrettyGroups(groups: seq<Element>): (r: seq<Element>)
    ensures |r| == |groups|
    ensures forall i :: 0 <= i < |groups| ==> r[i] == groups[i].(tail := if i < |groups| - 1 then "\n    " else "\n  ")
  {
    seq(|groups|, i requires 0 <= i < |groups| => groups[i].(tail := if i < |groups| - 1 then "\n    " else "\n  "))
  }

  function PrettyItem(item: Element, last: bool): Element {
    Element(item.tag, item.attrs, if item.children != [] then "\n    " else item.text, PrettyGroups(item.children),
            if last then "\n" else "\n  ")
  }

  function PrettyItems(items: seq<Element>): seq<Element> {
    if items == [] then [] else [PrettyItem(items[0], |items| == 1)] + PrettyItems(items[1..])
  }

  function Pretty(e: Element): Element {
    e.(text := if e.children != [] then "\n  " else e.text, children := PrettyItems(e.children))
  }

  // ---- Decoding

  function GetAttr(attrs: seq<Attr>, name: string): Option<string> {
    if attrs == [] then None
    else if attrs[|attrs| - 1].name == name then Some(attrs[|attrs| - 1].value)
    else GetAttr(attrs[..|attrs| - 1], name)
  }

  /** The group loop of RosterItem.from_xml: the groups and whether one was repeated. */
  function ReadGroups(children: seq<Element>): (set<string>, bool) {
    if children == [] then ({}, false) else
      var (groups, duplicate) := ReadGroups(children[..|children| - 1]);
      var last := children[|children| - 1];
      if last.tag != GROUP_TAG then (groups, duplicate)
      else (groups + {last.text}, duplicate || last.text in groups)
  }

  /** RosterItem.from_xml; the constructor takes the subscription "none" for None. */
  function ReadItem(p: Prep, e: Element): Result<Item> {
    if e.tag != ITEM_TAG then Bad else
      match GetAttr(e.attrs, "jid")
      case None => Bad
      case Some(text) =>
        match FromUnicode(p, text)
        case Bad => Bad
        case Good(jid) =>
          var subscription := GetAttr(e.attrs, "subscription");
          var (groups, duplicate) := ReadGroups(e.children);
          Good(Item(jid, GetAttr(e.attrs, "name"), groups, if subscription == Some("none") then None else subscription,
                    GetAttr(e.attrs, "ask"), GetAttr(e.attrs, "approved") == Some("true"), duplicate))
  }

  /** The item loop of RosterPayload.from_xml: other elements and repeated JIDs are passed over. */
  function ReadItems(p: Prep, es: seq<Element>, seen: set<JID>): Result<seq<Item>>
    decreases es
  {
    if es == [] then Good([])
    else if es[0].tag != ITEM_TAG then ReadItems(p, es[1..], seen)
    else match ReadItem(p, es[0])
      case Bad => Bad
      case Good(item) =>
        if item.jid in seen then ReadItems(p, es[1..], seen) else
          match ReadItems(p, es[1..], seen + {item.jid})
          case Bad => Bad
          case Good(rest) => Good([item] + rest)
  }

  function ReadPayload(p: Prep, e: Element): Result<Held> {
    if e.tag != QUERY_TAG then Bad else
      match ReadItems(p, e.children, {})
      case Bad => Bad
      case Good(items) => Good(Held(items, GetAttr(e.attrs, "ver")))
  }

  /** load_roster */
  ghost function Load(p: Prep, e: Element): Result<Held> {
    Accept(ReadPayload(p, e))
  }

  // ---- What a parsed payload is like

  /** A parsed payload has distinct JIDs, so the Roster constructor only minds "remove" items. */
  lemma {:induction false} ParsedIsDistinct(p: Prep, es: seq<Element>, seen: set<JID>)
    ensures var r := ReadItems(p, es, seen);
      r.Good? ==> DistinctJids(r.value) && forall x <- r.value :: x.jid !in seen
    decreases es
  {
    if es != [] {
      ParsedIsDistinct(p, es[1..], seen);
      if es[0].tag == ITEM_TAG && ReadItem(p, es[0]).Good? {
        ParsedIsDistinct(p, es[1..], seen + {ReadItem(p, es[0]).value.jid});
      }
    }
  }

  // ---- What is read, told without the decoder

  ghost predicate DistinctNames(attrs: seq<Attr>) {
    forall i, j :: 0 <= i < j < |attrs| ==> attrs[i].name != attrs[j].name
  }

  lemma {:induction false} GetAttrIs(attrs: seq<Attr>, name: string)
    requires DistinctNames(attrs)
    ensures forall v :: GetAttr(attrs, name) == Some(v) <==> Attr(name, v) in attrs
  {
    if attrs != [] {
      var before, last := attrs[..|attrs| - 1], attrs[|attrs| - 1];
      GetAttrIs(before, name);
      assert attrs == before + [last];
      assert forall a <- before :: a.name != last.name;
    }
  }

  lemma {:induction false} GroupsAre(children: seq<Element>)
    ensures var (groups, duplicate) := ReadGroups(children);
      && (forall g :: g in groups <==> exists e <- children :: e.tag == "{jabber:iq:roster}group" && e.text == g)
      && (duplicate <==> exists i, j :: 0 <= i < j < |children| && children[i].tag == "{jabber:iq:roster}group"
                                        && children[j].tag == "{jabber:iq:roster}group"
                                        && children[i].text == children[j].text)
  {
    if children != [] {
      var n := |children| - 1;
      var before, last := children[..n], children[n];
      GroupsAre(before);
      assert children == before + [last];
      assert forall i :: 0 <= i < n ==> before[i] == children[i];
      if last.tag == GROUP_TAG && last.text in ReadGroups(before).0 {
        var e :| e in before && e.tag == GROUP_TAG && e.text == last.text;
        var i :| 0 <= i < n && before[i] == e;
        assert children[i].text == children[n].text;
      }
    }
  }

  /** An item is read exactly from an item element with a JID that parses, field by field. */
  lemma ItemIsRead(p: Prep, e: Element)
    requires DistinctNames(e.attrs)
    ensures var r := ReadItem(p, e);
      && (r.Good? <==> e.tag == "{jabber:iq:roster}item"
                       && exists text :: Attr("jid", text) in e.attrs && FromUnicode(p, text).Good?)
      && (r.Good? ==>
            && (forall text :: Attr("jid", text) in e.attrs ==> FromUnicode(p, text) == Good(r.value.jid))
            && (forall v :: r.value.name == Some(v) <==> Attr("name", v) in e.attrs)
            && (forall v :: r.value.subscription == Some(v) <==> Attr("subscription", v) in e.attrs && v != "none")
            && (forall v :: r.value.ask == Some(v) <==> Attr("ask", v) in e.attrs)
            && (r.value.approved <==> Attr("approved", "true") in e.attrs)
            && (r.value.groups, r.value.duplicateGroup) == ReadGroups(e.children))
  {
    GetAttrIs(e.attrs, "jid");
    GetAttrIs(e.attrs, "name");
    GetAttrIs(e.attrs, "subscription");
    GetAttrIs(e.attrs, "ask");
    GetAttrIs(e.attrs, "approved");
    var text := GetAttr(e.attrs, "jid");
    assert text.Some? ==> Attr("jid", text.value) in e.attrs;
  }

  predicate Readable(p: Prep, es: seq<Element>) {
    forall e <- es :: e.tag == ITEM_TAG ==> ReadItem(p, e).Good?
  }

  /** From the back: an item counts unless one with its JID came before. */
  function FirstOfEach(p: Prep, es: seq<Element>): seq<Item>
    requires Readable(p, es)
  {
    if es == [] then [] else
      var before, last := FirstOfEach(p, es[..|es| - 1]), es[|es| - 1];
      if last.tag != ITEM_TAG then before else
        var item := ReadItem(p, last).value;
        if exists x <- before :: x.jid == item.jid then before else before + [item]
  }

  /** What one more element at the end adds. */
  function Appended(p: Prep, r: Result<seq<Item>>, e: Element, seen: set<JID>): Result<seq<Item>> {
    if r.Bad? || e.tag != ITEM_TAG then r
    else if ReadItem(p, e).Bad? then Bad
    else
      var item := ReadItem(p, e).value;
      if item.jid in seen || exists x <- r.value :: x.jid == item.jid then r else Good(r.value + [item])
  }

  lemma {:induction false} ReadSnoc(p: Prep, es: seq<Element>, e: Element, seen: set<JID>)
    ensures ReadItems(p, es + [e], seen) == Appended(p, ReadItems(p, es, seen), e, seen)
    decreases es
  {
    if es == [] {
      assert es + [e] == [e] && [e][1..] == [];
      if e.tag == ITEM_TAG && ReadItem(p, e).Good? {
        var item := ReadItem(p, e).value;
        assert ReadItems(p, [e][1..], seen + {item.jid}) == Good([]);
        assert [item] + [] == [item] && [] + [item] == [item];
      }
    } else {
      assert (es + [e])[0] == es[0] && (es + [e])[1..] == es[1..] + [e];
      if es[0].tag != ITEM_TAG {
        ReadSnoc(p, es[1..], e, seen);
      } else if ReadItem(p, es[0]).Good? {
        var first := ReadItem(p, es[0]).value;
        if first.jid in seen {
          ReadSnoc(p, es[1..], e, seen);
        } else {
          ReadSnoc(p, es[1..], e, seen + {first.jid});
          AppendedBehind(p, first, ReadItems(p, es[1..], seen + {first.jid}), e, seen);
        }
      }
    }
  }

  lemma AppendedBehind(p: Prep, first: Item, r: Result<seq<Item>>, e: Element, seen: set<JID>)
    requires first.jid !in seen
    ensures Behind([first], Appended(p, r, e, seen + {first.jid})) == Appended(p, Behind([first], r), e, seen)
  {
    if r.Good? && e.tag == ITEM_TAG && ReadItem(p, e).Good? {
      var item := ReadItem(p, e).value;
      var all := [first] + r.value;
      assert all[0] == first && forall x <- r.value :: x in all;
      assert [first] + (r.value + [item]) == all + [item];
    }
  }

  /** Reading fails exactly if some item does, and gives the first item for each JID, in order. */
  lemma {:induction false} ItemsAreRead(p: Prep, es: seq<Element>)
    ensures ReadItems(p, es, {}) == if Readable(p, es) then Good(FirstOfEach(p, es)) else Bad
  {
    if es != [] {
      var before, last := es[..|es| - 1], es[|es| - 1];
      assert es == before + [last];
      ItemsAreRead(p, before);
      ReadSnoc(p, before, last, {});
    }
  }

  /** The payload: a query element with its items and its version. */
  lemma PayloadIsRead(p: Prep, e: Element)
    requires DistinctNames(e.attrs)
    ensures var r := ReadPayload(p, e);
      && (r.Good? <==> e.tag == "{jabber:iq:roster}query" && Readable(p, e.children))
      && (r.Good? ==> r.value.items == FirstOfEach(p, e.children)
                      && forall v :: r.value.version == Some(v) <==> Attr("ver", v) in e.attrs)
  {
    ItemsAreRead(p, e.children);
    GetAttrIs(e.attrs, "ver");
  }

  // ---- What is written

  /** The attributes of an item element and nothing else; its children are the groups in the order given. */
  lemma ItemIsWritten(item: Item, order: seq<string>)
    ensures var e := ItemElement(item, order);
      && e.tag == "{jabber:iq:roster}item" && e.text == "" && e.tail == "" && |e.children| == |order|
      && (forall i :: 0 <= i < |order| ==> e.children[i] == Element("{jabber:iq:roster}group", [], order[i], [], ""))
      && (forall a :: a in e.attrs <==>
            || a == Attr("jid", AsUnicode(item.jid))
            || (item.name.Some? && a == Attr("name", item.name.value))
            || (item.subscription.Some? && a == Attr("subscription", item.subscription.value))
            || (item.ask.Some? && item.ask.value != "" && a == Attr("ask", item.ask.value))
            || (item.approved && a == Attr("approved", "true")))
  {
  }

  lemma RosterIsWritten(held: Held, orders: seq<seq<string>>)
    requires |orders| == |held.items|
    ensures var e := RosterElement(held, orders);
      && e.tag == "{jabber:iq:roster}query" && e.text == "" && |e.children| == |held.items|
      && e.attrs == (if held.version.Some? then [Attr("ver", held.version.value)] else [])
      && forall i :: 0 <= i < |held.items| ==> e.children[i] == ItemElement(held.items[i], orders[i])
  {
    ItemElementsAre(held.items, orders);
  }

  lemma {:induction false} ItemElementsAre(items: seq<Item>, orders: seq<seq<string>>)
    requires |orders| == |items|
    ensures |ItemElements(items, orders)| == |items|
    ensures forall i :: 0 <= i < |items| ==> ItemElements(items, orders)[i] == ItemElement(items[i], orders[i])
  {
    if items != [] {
      ItemElementsAre(items[1..], orders[1..]);
    }
  }

  // ---- Round trips

  /** What decoding makes of an item: "none" and an empty ask are no values. */
  function Plain(item: Item): Item {
    item.(subscription := if item.subscription == Some("none") then None else item.subscription,
          ask := if OrEmpty(item.ask) == "" then None else item.ask, duplicateGroup := false)
  }

  function PlainAll(items: seq<Item>): seq<Item> {
    if items == [] then [] else [Plain(items[0])] + PlainAll(items[1..])
  }

  /** And an empty part of its JID is not printed. */
  function Restored(item: Item): Item {
    Plain(item).(jid := Stripped(item.jid))
  }

  /** What decoding makes of the items: one that comes back with the JID of an earlier one is lost. */
  function Survivors(items: seq<Item>, seen: set<JID>): seq<Item> {
    if items == [] then []
    else if Stripped(items[0].jid) in seen then Survivors(items[1..], seen)
    else [Restored(items[0])] + Survivors(items[1..], seen + {Stripped(items[0].jid)})
  }

  lemma GetMaybe(attrs: seq<Attr>, given: bool, a: Attr, name: string)
    ensures GetAttr(Maybe(attrs, given, a), name)
      == if given && a.name == name then Some(a.value) else GetAttr(attrs, name)
  {
    if given {
      assert (attrs + [a])[..|attrs|] == attrs;
    }
  }

  /** The five attributes looked up by a name. */
  lemma ItemAttr(item: Item, name: string)
    ensures GetAttr(ItemAttrs(item), name)
      == if name == "approved" then (if item.approved then Some("true") else None)
         else if name == "ask" then (if OrEmpty(item.ask) != "" then item.ask else None)
         else if name == "subscription" then item.subscription
         else if name == "name" then item.name
         else if name == "jid" then Some(AsUnicode(item.jid)) else None
  {
    var a1 := [Attr("jid", AsUnicode(item.jid))];
    var a2 := Maybe(a1, item.name.Some?, Attr("name", OrEmpty(item.name)));
    var a3 := Maybe(a2, item.subscription.Some?, Attr("subscription", OrEmpty(item.subscription)));
    var a4 := Maybe(a3, OrEmpty(item.ask) != "", Attr("ask", OrEmpty(item.ask)));
    assert a1[..0] == [];
    GetMaybe(a1, item.name.Some?, Attr("name", OrEmpty(item.name)), name);
    GetMaybe(a2, item.subscription.Some?, Attr("subscription", OrEmpty(item.subscription)), name);
    GetMaybe(a3, OrEmpty(item.ask) != "", Attr("ask", OrEmpty(item.ask)), name);
    GetMaybe(a4, item.approved, Attr("approved", "true"), name);
  }

  lemma GroupElementsSnoc(order: seq<string>, last: string)
    ensures GroupElements(order + [last]) == GroupElements(order) + [GroupElement(last)]
  {
  }

  lemma {:induction false} GroupsRead(order: seq<string>)
    requires forall i, j :: 0 <= i < j < |order| ==> order[i] != order[j]
    ensures ReadGroups(GroupElements(order)) == ((set g | g in order), false)
  {
    if order != [] {
      var before, last := order[..|order| - 1], order[|order| - 1];
      assert order == before + [last];
      assert last !in before by { assert forall i :: 0 <= i < |before| ==> before[i] == order[i]; }
      GroupsRead(before);
      GroupElementsSnoc(before, last);
      ReadGroupsSnoc(GroupElements(before), last);
      GroupSetSnoc(before, last);
    } else {
      assert (set g | g in order) == {};
    }
  }

  lemma ReadGroupsSnoc(children: seq<Element>, last: string)
    ensures var (groups, duplicate) := ReadGroups(children);
      ReadGroups(children + [GroupElement(last)]) == (groups + {last}, duplicate || last in groups)
  {
    assert (children + [GroupElement(last)])[..|children|] == children;
  }

  lemma GroupSetSnoc(before: seq<string>, last: string)
    ensures (set g | g in before + [last]) == (set g | g in before) + {last}
  {
  }

  lemma ItemAttrsRead(item: Item)
    ensures var attrs := ItemAttrs(item);
      && GetAttr(attrs, "jid") == Some(AsUnicode(item.jid)) && GetAttr(attrs, "name") == item.name
      && GetAttr(attrs, "subscription") == item.subscription
      && GetAttr(attrs, "ask") == (if OrEmpty(item.ask) != "" then item.ask else None)
      && GetAttr(attrs, "approved") == (if item.approved then Some("true") else None)
  {
    ItemAttr(item, "jid");
    ItemAttr(item, "name");
    ItemAttr(item, "subscription");
    ItemAttr(item, "ask");
    ItemAttr(item, "approved");
  }

  /** Decoding an encoded item gives it back, if and only if its JID has no empty part. */
  lemma ItemRoundTrip(p: Prep, item: Item, order: seq<string>)
    requires Prepared(p, item.jid) && Enumerates(order, item.groups)
    ensures ReadItem(p, ItemElement(item, order)) == Good(Restored(item))
    ensures Restored(item) == Plain(item) <==> NoEmptyPart(item.jid)
  {
    ParsePrinted(p, item.jid);
    ItemAttrsRead(item);
    GroupsRead(order);
    assert (set g | g in order) == item.groups;
    ReadItemOf(p, ItemElement(item, order), AsUnicode(item.jid), Stripped(item.jid), item.groups);
  }

  lemma ReadItemOf(p: Prep, e: Element, text: string, jid: JID, groups: set<string>)
    requires e.tag == ITEM_TAG && GetAttr(e.attrs, "jid") == Some(text) && FromUnicode(p, text) == Good(jid)
    requires ReadGroups(e.children) == (groups, false)
    ensures var subscription := GetAttr(e.attrs, "subscription");
      ReadItem(p, e)
      == Good(Item(jid, GetAttr(e.attrs, "name"), groups, if subscription == Some("none") then None else subscription,
                   GetAttr(e.attrs, "ask"), GetAttr(e.attrs, "approved") == Some("true"), false))
  {
  }

  lemma {:induction false} ItemsRead(p: Prep, items: seq<Item>, orders: seq<seq<string>>, seen: set<JID>)
    requires |orders| == |items|
    requires forall i :: 0 <= i < |items| ==> Prepared(p, items[i].jid) && Enumerates(orders[i], items[i].groups)
    ensures ReadItems(p, ItemElements(items, orders), seen) == Good(Survivors(items, seen))
    decreases items
  {
    if items != [] {
      ItemRoundTrip(p, items[0], orders[0]);
      var es, jid := ItemElements(items, orders), Stripped(items[0].jid);
      assert es[0] == ItemElement(items[0], orders[0]) && es[1..] == ItemElements(items[1..], orders[1..]);
      ItemsRead(p, items[1..], orders[1..], if jid in seen then seen else seen + {jid});
    }
  }

  // ---- What survives

  lemma {:induction false} AllSurvive(items: seq<Item>, seen: set<JID>)
    requires DistinctJids(items) && forall x <- items :: NoEmptyPart(x.jid) && x.jid !in seen
    ensures Survivors(items, seen) == PlainAll(items)
    decreases items
  {
    if items != [] {
      assert items[0] in items && forall i :: 0 <= i < |items| - 1 ==> items[1..][i] == items[i + 1];
      AllSurvive(items[1..], seen + {items[0].jid});
    }
  }

  lemma {:induction false} SurvivorsAreStripped(items: seq<Item>, seen: set<JID>)
    ensures forall x <- Survivors(items, seen) :: NoEmptyPart(x.jid)
    decreases items
  {
    if items != [] {
      SurvivorsAreStripped(items[1..], seen);
      SurvivorsAreStripped(items[1..], seen + {Stripped(items[0].jid)});
    }
  }

  /** The items survive as they are if and only if none has a JID with an empty part. */
  lemma SurviveIff(items: seq<Item>)
    requires DistinctJids(items)
    ensures Survivors(items, {}) == PlainAll(items) <==> forall x <- items :: NoEmptyPart(x.jid)
  {
    if forall x <- items :: NoEmptyPart(x.jid) {
      AllSurvive(items, {});
    }
    if Survivors(items, {}) == PlainAll(items) {
      SurvivorsAreStripped(items, {});
      PlainAt(items);
      forall x | x in items ensures NoEmptyPart(x.jid) {
        var i :| 0 <= i < |items| && items[i] == x;
        assert PlainAll(items)[i] in Survivors(items, {});
      }
    }
  }

  ghost predicate ApartWithoutEmptyParts(items: seq<Item>, seen: set<JID>) {
    && (forall x <- items :: Stripped(x.jid) !in seen)
    && forall i, j :: 0 <= i < j < |items| ==> Stripped(items[i].jid) != Stripped(items[j].jid)
  }

  lemma ApartNext(items: seq<Item>, seen: set<JID>)
    requires items != []
    ensures var jid := Stripped(items[0].jid);
      ApartWithoutEmptyParts(items, seen) <==> jid !in seen && ApartWithoutEmptyParts(items[1..], seen + {jid})
  {
    var rest, jid := items[1..], Stripped(items[0].jid);
    assert items == [items[0]] + rest;
    if jid !in seen && ApartWithoutEmptyParts(rest, seen + {jid}) {
      ApartMore(items, seen);
    }
    if ApartWithoutEmptyParts(items, seen) {
      forall x | x in rest ensures Stripped(x.jid) !in seen + {jid} {
        var i :| 0 <= i < |rest| && rest[i] == x;
        assert items[i + 1] == x;
      }
      assert forall i :: 0 <= i < |rest| ==> rest[i] == items[i + 1];
    }
  }

  lemma ApartMore(items: seq<Item>, seen: set<JID>)
    requires items != [] && Stripped(items[0].jid) !in seen
    requires ApartWithoutEmptyParts(items[1..], seen + {Stripped(items[0].jid)})
    ensures ApartWithoutEmptyParts(items, seen)
  {
    var rest := items[1..];
    assert items == [items[0]] + rest;
    forall i, j | 0 <= i < j < |items| ensures Stripped(items[i].jid) != Stripped(items[j].jid) {
      assert items[j] == rest[j - 1] && rest[j - 1] in rest;
      assert i > 0 ==> items[i] == rest[i - 1];
    }
  }

  /** None is lost if and only if no two JIDs are the same but for empty parts. */
  lemma {:induction false} NoneLostIff(items: seq<Item>, seen: set<JID>)
    ensures |Survivors(items, seen)| <= |items|
    ensures |Survivors(items, seen)| == |items| <==> ApartWithoutEmptyParts(items, seen)
    decreases items
  {
    if items != [] {
      var jid := Stripped(items[0].jid);
      NoneLostIff(items[1..], if jid in seen then seen else seen + {jid});
      ApartNext(items, seen);
    }
  }

  /** Decoding the encoded roster gives the same version and those of the items that survive, in order;
      these are all items, as they were, if and only if no JID has an empty part. */
  lemma RosterRoundTrip(p: Prep, held: Held, orders: seq<seq<string>>)
    requires |orders| == |held.items| && DistinctJids(held.items)
    requires forall i :: 0 <= i < |held.items| ==>
      Prepared(p, held.items[i].jid) && Enumerates(orders[i], held.items[i].groups)
    ensures ReadPayload(p, RosterElement(held, orders)) == Good(held.(items := Survivors(held.items, {})))
    ensures ReadPayload(p, RosterElement(held, orders)) == Good(held.(items := PlainAll(held.items)))
       <==> forall x <- held.items :: NoEmptyPart(x.jid)
  {
    ItemsRead(p, held.items, orders, {});
    GetMaybe([], held.version.Some?, Attr("ver", OrEmpty(held.version)), "ver");
    SurviveIff(held.items);
  }

  lemma {:induction false} PrettyGroupsRead(groups: seq<Element>, k: nat)
    requires k <= |groups|
    ensures ReadGroups(PrettyGroups(groups)[..k]) == ReadGroups(groups[..k])
  {
    if k > 0 {
      PrettyGroupsRead(groups, k - 1);
      assert PrettyGroups(groups)[..k][..k - 1] == PrettyGroups(groups)[..k - 1];
      assert groups[..k][..k - 1] == groups[..k - 1];
    }
  }

  lemma {:induction false} PrettyItemsRead(p: Prep, es: seq<Element>, seen: set<JID>)
    ensures ReadItems(p, PrettyItems(es), seen) == ReadItems(p, es, seen)
    decreases es
  {
    if es != [] {
      var item := PrettyItem(es[0], |es| == 1);
      PrettyGroupsRead(es[0].children, |es[0].children|);
      assert PrettyGroups(es[0].children)[..|es[0].children|] == item.children;
      assert es[0].children[..|es[0].children|] == es[0].children;
      assert ReadItem(p, item) == ReadItem(p, es[0]);
      assert PrettyItems(es)[0] == item && PrettyItems(es)[1..] == PrettyItems(es[1..]);
      PrettyItemsRead(p, es[1..], seen);
      if ReadItem(p, es[0]).Good? {
        PrettyItemsRead(p, es[1..], seen + {ReadItem(p, es[0]).value.jid});
      }
    }
  }

  /** The added whitespace never changes what is decoded, whatever the element. */
  lemma PrettyIsHarmless(p: Prep, e: Element)
    ensures ReadPayload(p, Pretty(e)) == ReadPayload(p, e) && Load(p, Pretty(e)) == Load(p, e)
  {
    PrettyItemsRead(p, e.children, {});
  }

  /** Items without the mark of a repeated group, which is not saved. */
  function Unmarked(items: seq<Item>): (r: seq<Item>)
    ensures |r| == |items| && forall i :: 0 <= i < |items| ==> r[i] == items[i].(duplicateGroup := false)
  {
    seq(|items|, i requires 0 <= i < |items| => items[i].(duplicateGroup := false))
  }

  lemma {:induction false} PlainAt(items: seq<Item>)
    ensures |PlainAll(items)| == |items| && forall i :: 0 <= i < |items| ==> PlainAll(items)[i] == Plain(items[i])
  {
    if items != [] {
      PlainAt(items[1..]);
    }
  }

  lemma CleanIsPlain(items: seq<Item>)
    requires forall x <- items :: Verified(x)
    ensures PlainAll(items) == Unmarked(items) && FixedAll(Unmarked(items)) == Unmarked(items)
  {
    PlainAt(items);
    forall i | 0 <= i < |items|
      ensures Plain(items[i]) == Unmarked(items)[i] && FixedAll(Unmarked(items))[i] == Unmarked(items)[i]
    {
      assert items[i] in items;
    }
  }

  lemma {:induction false} SurvivorsAreVerified(items: seq<Item>, seen: set<JID>)
    requires forall x <- items :: Verified(x)
    ensures forall x <- Survivors(items, seen) :: Verified(x) && x.subscription != REMOVE
    decreases items
  {
    if items != [] {
      assert items[0] in items && forall x <- items[1..] :: x in items;
      SurvivorsAreVerified(items[1..], seen);
      SurvivorsAreVerified(items[1..], seen + {Stripped(items[0].jid)});
    }
  }

  lemma FixedVerified(items: seq<Item>)
    requires forall x <- items :: Verified(x)
    ensures FixedAll(items) == items
  {
    forall i | 0 <= i < |items| ensures FixedAll(items)[i] == items[i] {
      assert items[i] in items;
    }
  }

  lemma {:induction false} SurvivorsAreDistinct(items: seq<Item>, seen: set<JID>)
    ensures DistinctJids(Survivors(items, seen)) && forall x <- Survivors(items, seen) :: x.jid !in seen
    decreases items
  {
    if items != [] {
      SurvivorsAreDistinct(items[1..], seen);
      SurvivorsAreDistinct(items[1..], seen + {Stripped(items[0].jid)});
    }
  }

  /** Loading accepts the survivors of a clean roster as they are. */
  lemma AcceptSurvivors(held: Held)
    requires Clean(held.items)
    ensures var saved := held.(items := Survivors(held.items, {})); Accept(Good(saved)) == Good(saved)
  {
    SurvivorsAreVerified(held.items, {});
    SurvivorsAreDistinct(held.items, {});
    FixedVerified(Survivors(held.items, {}));
  }

  /** A stored roster, which is clean and has prepared JIDs, is saved - pretty or not - and loaded: what
      comes back are the survivors of its items. It comes back unchanged, up to the mark of a repeated group,
      if and only if no JID in it has an empty part. */
  lemma SaveLoad(p: Prep, held: Held, orders: seq<seq<string>>, pretty: bool)
    requires |orders| == |held.items| && Clean(held.items)
    requires forall i :: 0 <= i < |held.items| ==>
      Prepared(p, held.items[i].jid) && Enumerates(orders[i], held.items[i].groups)
    ensures var saved := RosterElement(held, orders); var loaded := Load(p, if pretty then Pretty(saved) else saved);
      && loaded == Good(held.(items := Survivors(held.items, {})))
      && (loaded == Good(held.(items := Unmarked(held.items))) <==> forall x <- held.items :: NoEmptyPart(x.jid))
  {
    RosterRoundTrip(p, held, orders);
    PrettyIsHarmless(p, RosterElement(held, orders));
    AcceptSurvivors(held);
    CleanIsPlain(held.items);
  }

  // ---- Every stored roster is one of those

  ghost predicate AllPrepared(p: Prep, items: seq<Item>) {
    forall x <- items :: Prepared(p, x.jid)
  }

  /** A payload that was parsed from some element. */
  ghost predicate Read(p: Prep, r: Result<Held>) {
    exists e :: r == ReadPayload(p, e)
  }

  /** What a client is given comes out of the parser. */
  ghost predicate FromWire(p: Prep, ops: seq<RosterSync.Op>) {
    forall op <- ops ::
      match op
      case Received(Some(held)) => Read(p, Good(held))
      case Load(file) => Read(p, file)
      case Push(_, items) => exists version :: Read(p, Good(Held(items, version)))
      case _ => true
  }

  lemma {:induction false} ItemsArePrepared(p: Prep, es: seq<Element>, seen: set<JID>)
    requires Lawful(p)
    ensures var r := ReadItems(p, es, seen); r.Good? ==> AllPrepared(p, r.value)
    decreases es
  {
    if es != [] {
      ItemsArePrepared(p, es[1..], seen);
      if es[0].tag == ITEM_TAG && ReadItem(p, es[0]).Good? {
        ParsedFromString(p, GetAttr(es[0].attrs, "jid").value);
        ItemsArePrepared(p, es[1..], seen + {ReadItem(p, es[0]).value.jid});
      }
    }
  }

  lemma ReadIsPrepared(p: Prep, held: Held)
    requires Lawful(p) && Read(p, Good(held))
    ensures DistinctJids(held.items) && AllPrepared(p, held.items) && AllPrepared(p, FixedAll(held.items))
  {
    var e :| Good(held) == ReadPayload(p, e);
    ItemsArePrepared(p, e.children, {});
    ParsedIsDistinct(p, e.children, {});
    forall x | x in FixedAll(held.items) ensures Prepared(p, x.jid) {
      var i :| 0 <= i < |held.items| && FixedAll(held.items)[i] == x;
      assert held.items[i] in held.items;
    }
  }

  ghost predicate Saveable(p: Prep, c: Client) {
    c.roster.Some? ==> Clean(c.roster.value.items) && AllPrepared(p, c.roster.value.items)
  }

  lemma DoKeepsSaveable(p: Prep, c: Client, op: RosterSync.Op)
    requires Lawful(p) && Saveable(p, c) && FromWire(p, [op])
    ensures Saveable(p, RosterSync.Do(c, op))
  {
    assert op in [op];
    match op
    case Received(Some(held)) =>
      ReadIsPrepared(p, held);
      FixedIsClean(held.items);
    case Load(Good(held)) =>
      ReadIsPrepared(p, held);
      FixedIsClean(held.items);
    case Push(from_, items) =>
      var version :| Read(p, Good(Held(items, version)));
      ReadIsPrepared(p, Held(items, version));
      if |items| == 1 && c.roster.Some? {
        PushKeepsClean(c.roster.value.items, items[0]);
        RemoveKeeps(c.roster.value.items, items[0].jid);
      }
    case _ =>
  }

  /** Whatever a client receives and loads, what it stores meets the conditions of SaveLoad. */
  lemma {:induction false} StoredIsSaveable(p: Prep, c: Client, ops: seq<RosterSync.Op>)
    requires Lawful(p) && Saveable(p, c) && FromWire(p, ops)
    ensures Saveable(p, RosterSync.Run(c, ops))
    decreases ops
  {
    if ops != [] {
      assert ops[0] in ops && forall op <- ops[1..] :: op in ops;
      DoKeepsSaveable(p, c, ops[0]);
      StoredIsSaveable(p, RosterSync.Do(c, ops[0]), ops[1..]);
    }
  }

  // ---- A contact that is lost

  function ContactElement(text: string): Element {
    Element(ITEM_TAG, [Attr("jid", text)], "", [], "")
  }

  function TwoContacts(s: string, domain: string): Element {
    Element(QUERY_TAG, [], "", [ContactElement(s + "@" + domain), ContactElement(domain)], "")
  }

  function Contact(jid: JID): Item {
    Item(jid, None, {}, None, None, false, false)
  }

  lemma GetSingle(a: Attr, name: string)
    ensures GetAttr([a], name) == if a.name == name then Some(a.value) else None
  {
    GetMaybe([], true, a, name);
    assert Maybe([], true, a) == [a];
  }

  lemma ContactRead(p: Prep, text: string, jid: JID)
    requires FromUnicode(p, text) == Good(jid)
    ensures ReadItem(p, ContactElement(text)) == Good(Contact(jid))
  {
    var a := Attr("jid", text);
    GetSingle(a, "jid");
    GetSingle(a, "name");
    GetSingle(a, "subscription");
    GetSingle(a, "ask");
    GetSingle(a, "approved");
  }

  lemma TwoRead(p: Prep, e1: Element, e2: Element, x: Item, y: Item)
    requires ReadItem(p, e1) == Good(x) && ReadItem(p, e2) == Good(y) && x.jid != y.jid
    ensures ReadItems(p, [e1, e2], {}) == Good([x, y])
  {
    var seen := {x.jid};
    assert [e2][1..] == [] && [y] + [] == [y];
    assert ReadItems(p, [e2], seen) == Good([y]);
    assert [e1, e2][1..] == [e2] && [x] + [y] == [x, y] && {} + seen == seen;
  }

  lemma OneSurvives(x: Item, y: Item)
    requires Stripped(x.jid) == Stripped(y.jid)
    ensures Survivors([x, y], {}) == [Restored(x)]
  {
    var seen := {Stripped(x.jid)};
    assert [y][1..] == [];
    assert Survivors([y], seen) == [];
    assert [x, y][1..] == [y] && {} + seen == seen;
  }

  lemma TwoJids(p: Prep, s: string, domain: string)
    requires s != "" && '@' !in s && '/' !in s && p.local(s) == Some("")
    requires domain != "" && '@' !in domain && '/' !in domain && p.domain(domain) == Some(domain)
    ensures FromUnicode(p, s + "@" + domain) == Good(JID(Some(""), domain, None))
    ensures FromUnicode(p, domain) == Good(JID(None, domain, None))
  {
    var text := s + "@" + domain;
    assert '/' !in text;
    SplitAt(text, '/', "");
    SplitAt(s, '@', domain);
    SplitAt(domain, '/', "");
    SplitAt(domain, '@', "");
  }

  lemma TwoContactsLoaded(p: Prep, s: string, domain: string)
    requires s != "" && '@' !in s && '/' !in s && p.local(s) == Some("")
    requires domain != "" && '@' !in domain && '/' !in domain && p.domain(domain) == Some(domain)
    ensures Load(p, TwoContacts(s, domain)) == Good(Held(StoredContacts(domain), None))
  {
    var items := StoredContacts(domain);
    TwoJids(p, s, domain);
    ContactRead(p, s + "@" + domain, items[0].jid);
    ContactRead(p, domain, items[1].jid);
    TwoRead(p, ContactElement(s + "@" + domain), ContactElement(domain), items[0], items[1]);
    FixedVerified(items);
  }

  function StoredContacts(domain: string): seq<Item> {
    [Contact(JID(Some(""), domain, None)), Contact(JID(None, domain, None))]
  }

  /** A server sends two contacts, one with a local part that is prepared to nothing. Both are stored; after
      saving and loading there is one. */
  lemma ContactLost(p: Prep, s: string, domain: string, pretty: bool)
    requires s != "" && '@' !in s && '/' !in s && p.local(s) == Some("")
    requires domain != "" && '@' !in domain && '/' !in domain && p.domain(domain) == Some(domain)
    ensures Load(p, TwoContacts(s, domain)) == Good(Held(StoredContacts(domain), None))
    ensures var saved := RosterElement(Held(StoredContacts(domain), None), [[], []]);
      Load(p, if pretty then Pretty(saved) else saved) == Good(Held([Contact(JID(None, domain, None))], None))
  {
    TwoContactsLoaded(p, s, domain);
    var items := StoredContacts(domain);
    SaveLoad(p, Held(items, None), [[], []], pretty);
    OneSurvives(items[0], items[1]);
    assert Restored(items[0]) == items[1];
  }

  // ---- The loops

  method ItemAsXml(item: Item) returns (e: Element)
    ensures exists order :: Enumerates(order, item.groups) && e == ItemElement(item, order)
  {
    var attrs := [Attr("jid", AsUnicode(item.jid))];
    if item.name.Some? {
      attrs := attrs + [Attr("name", item.name.value)];
    }
    if item.subscription.Some? {
      attrs := attrs + [Attr("subscription", item.subscription.value)];
    }
    if OrEmpty(item.ask) != "" {
      attrs := attrs + [Attr("ask", item.ask.value)];
    }
    if item.approved {
      attrs := attrs + [Attr("approved", "true")];
    }
    var children: seq<Element> := [];
    var todo := item.groups;
    ghost var order: seq<string> := [];
    while todo != {}
      invariant todo <= item.groups && Enumerates(order, item.groups - todo)
      invariant children == GroupElements(order)
      decreases |todo|
    {
      var group :| group in todo;
      todo := todo - {group};
      children := children + [GroupElement(group)];
      order := order + [group];
    }
    assert item.groups - todo == item.groups;
    e := Element(ITEM_TAG, attrs, "", children, "");
    assert Enumerates(order, item.groups) && e == ItemElement(item, order);
  }

  method ItemFromXml(p: Prep, e: Element) returns (r: Result<Item>)
    ensures r == ReadItem(p, e)
  {
    if e.tag != ITEM_TAG {
      return Bad;
    }
    var text := GetAttr(e.attrs, "jid");
    if text.None? {
      return Bad;
    }
    var jid := FromUnicode(p, text.value);
    if jid.Bad? {
      return Bad;
    }
    var subscription := GetAttr(e.attrs, "subscription");
    var duplicate, groups: set<string> := false, {};
    for i := 0 to |e.children|
      invariant (groups, duplicate) == ReadGroups(e.children[..i])
    {
      assert e.children[..i + 1][..i] == e.children[..i];
      if e.children[i].tag == GROUP_TAG {
        if e.children[i].text in groups {
          duplicate := true;
        }
        groups := groups + {e.children[i].text};
      }
    }
    assert e.children[..|e.children|] == e.children;
    if subscription == Some("none") {
      subscription := None;
    }
    r := Good(Item(jid.value, GetAttr(e.attrs, "name"), groups, subscription, GetAttr(e.attrs, "ask"),
                   GetAttr(e.attrs, "approved") == Some("true"), duplicate));
  }

  method PayloadFromXml(p: Prep, e: Element) returns (r: Result<Held>)
    ensures r == ReadPayload(p, e) && (r.Good? ==> DistinctJids(r.value.items))
  {
    ParsedIsDistinct(p, e.children, {});
    if e.tag != QUERY_TAG {
      return Bad;
    }
    var items: seq<Item> := [];
    var jids: set<JID> := {};
    assert e.children[0..] == e.children;
    ghost var whole := ReadItems(p, e.children, {});
    assert Behind([], whole) == whole by { assert whole.Good? ==> [] + whole.value == whole.value; }
    for i := 0 to |e.children|
      invariant whole == Behind(items, ReadItems(p, e.children[i..], jids))
    {
      assert e.children[i..][1..] == e.children[i + 1..];
      ReadNext(p, e.children[i..], jids, items);
      if e.children[i].tag != ITEM_TAG {
        continue;
      }
      var item := ItemFromXml(p, e.children[i]);
      if item.Bad? {
        return Bad;
      }
      if item.value.jid in jids {
        continue;
      }
      jids := jids + {item.value.jid};
      items := items + [item.value];
    }
    assert items + [] == items;
    r := Good(Held(items, GetAttr(e.attrs, "ver")));
  }

  function Behind(items: seq<Item>, r: Result<seq<Item>>): Result<seq<Item>> {
    match r
    case Bad => Bad
    case Good(rest) => Good(items + rest)
  }

  /** One turn of the item loop. */
  lemma ReadNext(p: Prep, es: seq<Element>, seen: set<JID>, items: seq<Item>)
    requires es != []
    ensures Behind(items, ReadItems(p, es, seen))
      == if es[0].tag != ITEM_TAG then Behind(items, ReadItems(p, es[1..], seen))
         else match ReadItem(p, es[0])
           case Bad => Bad
           case Good(item) =>
             if item.jid in seen then Behind(items, ReadItems(p, es[1..], seen))
             else Behind(items + [item], ReadItems(p, es[1..], seen + {item.jid}))
  {
    if es[0].tag == ITEM_TAG && ReadItem(p, es[0]).Good? {
      var item := ReadItem(p, es[0]).value;
      var rest := ReadItems(p, es[1..], seen + {item.jid});
      assert rest.Good? ==> items + ([item] + rest.value) == (items + [item]) + rest.value;
    }
  }
}
