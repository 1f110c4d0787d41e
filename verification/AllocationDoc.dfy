/**
 The allocation state file as a sequence of JSON tokens: what the pool writes, what it
 reads back, and the strict reader of the orphan audit.
 */
module AllocationDoc {
  import opened Common
  import opened IPv4

  /** Lexical JSON; `Bad` stands for text that is not a token. */
  datatype Token = ObjOpen | ObjClose | ArrOpen | ArrClose | Str(text: string) | Other | Bad

  type Doc = seq<Token>
  datatype Item = Item(key: string, value: string)

  /** The map a JSON object denotes: a later member replaces an earlier one with its name. */
  function MapOf(items: seq<Item>): map<string, string> {
    if items == [] then map[]
    else
      var last := items[|items| - 1];
      MapOf(items[..|items| - 1])[last.key := last.value]
  }

  ghost predicate DistinctKeys(items: seq<Item>) {
    forall i, j :: 0 <= i < j < |items| ==> items[i].key != items[j].key
  }

  ghost predicate DistinctValues(items: seq<Item>) {
    forall i, j :: 0 <= i < j < |items| ==> items[i].value != items[j].value
  }

  /** The document continues at `at` with an opened object whose first members are the items. */
  ghost predicate Opens(doc: Doc, at: nat, items: seq<Item>) {
    && at + 1 + 2 * |items| <= |doc|
    && doc[at] == ObjOpen
    && forall i :: 0 <= i < |items| ==> Member(doc, at + 1 + 2 * i, items[i])
  }

  predicate Member(doc: Doc, at: nat, item: Item)
    requires at + 1 < |doc|
  {
    doc[at] == Str(item.key) && doc[at + 1] == Str(item.value)
  }

  /** ... and closes right after them. */
  ghost predicate Holds(doc: Doc, at: nat, items: seq<Item>) {
    Opens(doc, at, items) && at + 1 + 2 * |items| < |doc| && doc[at + 1 + 2 * |items|] == ObjClose
  }

  /** The whole document is {"allocated": {items}}. */
  ghost predicate IsDoc(doc: Doc, items: seq<Item>) {
    && |doc| == 2 * |items| + 5
    && doc[0] == ObjOpen && doc[1] == Str("allocated")
    && Holds(doc, 2, items)
    && doc[|doc| - 1] == ObjClose
  }

  /** The document lists exactly the map, each key once, in some order. */
  ghost predicate Renders(doc: Doc, m: map<string, string>) {
    exists items :: IsDoc(doc, items) && DistinctKeys(items) && MapOf(items) == m
  }

  lemma {:induction false} MapOfExact(items: seq<Item>)
    requires DistinctKeys(items)
    ensures forall i :: 0 <= i < |items| ==>
              items[i].key in MapOf(items) && MapOf(items)[items[i].key] == items[i].value
    ensures forall k :: k in MapOf(items) ==> exists i :: 0 <= i < |items| && items[i].key == k
  {
    if items == [] {
    } else {
      var n := |items| - 1;
      var init := items[..n];
      MapOfExact(init);
      assert MapOf(items) == MapOf(init)[items[n].key := items[n].value];
      hide MapOf;
      forall i | 0 <= i < n ensures items[i].key in MapOf(items) && MapOf(items)[items[i].key] == items[i].value {
        assert init[i] == items[i] && items[i].key != items[n].key;
      }
      forall k | k in MapOf(items) ensures exists i :: 0 <= i < |items| && items[i].key == k {
        if k in MapOf(init) {
          var i :| 0 <= i < n && init[i].key == k;
          assert items[i].key == k;
        } else {
          assert items[n].key == k;
        }
      }
    }
  }

  lemma DocIsUnique(doc: Doc, items: seq<Item>, items': seq<Item>)
    requires IsDoc(doc, items) && IsDoc(doc, items')
    ensures items == items'
  {
  }

  /** A document under construction: everything up to the end of these members. */
  ghost predicate Begun(doc: Doc, items: seq<Item>) {
    |doc| == 3 + 2 * |items| && doc[0] == ObjOpen && doc[1] == Str("allocated") && Opens(doc, 2, items)
  }

  lemma BegunMore(doc: Doc, items: seq<Item>, item: Item)
    requires Begun(doc, items)
    ensures Begun(doc + [Str(item.key), Str(item.value)], items + [item])
  {
    var doc' := doc + [Str(item.key), Str(item.value)];
    forall i | 0 <= i < |items| ensures Member(doc', 3 + 2 * i, items[i]) {
      assert Member(doc, 3 + 2 * i, items[i]);
    }
  }

  lemma BegunClosed(doc: Doc, items: seq<Item>)
    requires Begun(doc, items)
    ensures IsDoc(doc + [ObjClose, ObjClose], items)
  {
    forall i | 0 <= i < |items| ensures Member(doc + [ObjClose, ObjClose], 3 + 2 * i, items[i]) {
      assert Member(doc, 3 + 2 * i, items[i]);
    }
  }

  /** Write a map out; the order of the members is left open. */
  method Marshal(m: map<string, string>) returns (doc: Doc)
    ensures Renders(doc, m)
  {
    var rest := m.Keys;
    ghost var items: seq<Item> := [];
    doc := [ObjOpen, Str("allocated"), ObjOpen];
    assert Begun(doc, items) && MapOf(items) == map[];
    hide MapOf, Begun, IsDoc;
    while rest != {}
      invariant rest <= m.Keys
      invariant MapOf(items) == m - rest
      invariant DistinctKeys(items)
      invariant forall i :: 0 <= i < |items| ==> items[i].key in m && items[i].key !in rest
      invariant Begun(doc, items)
      decreases rest
    {
      var k :| k in rest;
      BegunMore(doc, items, Item(k, m[k]));
      MapMore(items, Item(k, m[k]));
      doc := doc + [Str(k), Str(m[k])];
      rest := rest - {k};
      items := items + [Item(k, m[k])];
    }
    BegunClosed(doc, items);
    doc := doc + [ObjClose, ObjClose];
    assert MapOf(items) == m;
  }

  function ItemsOf(doc: Doc): seq<Item>
    requires |doc| >= 5 && forall i :: 3 <= i < |doc| - 2 ==> doc[i].Str?
  {
    seq((|doc| - 5) / 2, i requires 0 <= i < (|doc| - 5) / 2 => Item(doc[3 + 2 * i].text, doc[4 + 2 * i].text))
  }

  /** The pool's own reader, on documents of the shape it writes; anything else is an error. */
  function Unmarshal(doc: Doc): Result<map<string, string>> {
    if |doc| >= 5 && |doc| % 2 == 1 && doc[..3] == [ObjOpen, Str("allocated"), ObjOpen] &&
       doc[|doc| - 2..] == [ObjClose, ObjClose] && (forall i :: 3 <= i < |doc| - 2 ==> doc[i].Str?)
    then Ok(MapOf(ItemsOf(doc)))
    else Err
  }

  /** Reading back what was written gives the map that was written. */
  lemma UnmarshalRendered(doc: Doc, m: map<string, string>)
    requires Renders(doc, m)
    ensures Unmarshal(doc) == Ok(m)
  {
    var items :| IsDoc(doc, items) && DistinctKeys(items) && MapOf(items) == m;
    forall i | 3 <= i < |doc| - 2 ensures doc[i].Str? {
      assert Member(doc, 3 + 2 * ((i - 3) / 2), items[(i - 3) / 2]);
    }
    assert ItemsOf(doc) == items by {
      forall i | 0 <= i < |items| ensures ItemsOf(doc)[i] == items[i] {
        assert Member(doc, 3 + 2 * i, items[i]);
      }
    }
  }

  // ---- the audit's reader -------------------------------------------------------------

  /** The pool as the audit derives it from its own configuration. */
  datatype AuditPool = AuditPool(net: Net, gateway: Addr)

  lemma MaskedIsNet(subnet: Addr)
    ensures Net(subnet / 256 * 256, 8).Valid()
  {
  }

  /** Only a /24 subnet whose canonical gateway lies inside it is accepted. */
  function AuditPoolOf(subnet: Addr, bits: nat, gateway: string): (r: Option<AuditPool>)
    ensures r.Some? ==> r.value.net.Valid() && r.value.net.hostBits == 8
  {
    MaskedIsNet(subnet);
    var net := Net(subnet / 256 * 256, 8);
    if bits != 24 || ParseAddr(gateway).None? || !net.Contains(ParseAddr(gateway).value) then None
    else Some(AuditPool(net, ParseAddr(gateway).value))
  }

  predicate UsableInAudit(value: string, p: AuditPool) {
    match ParseAddr(value)
    case None => false
    case Some(a) => p.net.Contains(a) && a != p.net.base && a != p.gateway && a != p.net.Broadcast()
  }

  /** Allocator and auditor agree on the usable set of a /24 network. */
  lemma SameUsableSet(subnet: Addr, bits: nat, gateway: string, value: string)
    requires AuditPoolOf(subnet, bits, gateway).Some?
    ensures var p := AuditPoolOf(subnet, bits, gateway).value;
            UsableInAudit(value, p) <==> value in UsableList(p.net, gateway)
  {
    var p := AuditPoolOf(subnet, bits, gateway).value;
    assert Pow2(8) == 256;
    UsableTextExact(p.net, gateway);
    if ParseAddr(value).Some? {
      var a := ParseAddr(value).value;
      ContainsExact(p.net, a);
      ParseAddrExact(value, a);
      ParseAddrExact(gateway, p.gateway);
    }
  }

  /** What the strict reader demands of the members of the inner object. */
  ghost predicate Good(items: seq<Item>, p: AuditPool) {
    && DistinctKeys(items) && DistinctValues(items)
    && forall i :: 0 <= i < |items| ==> GoodItem(items[i], p)
  }

  predicate GoodItem(item: Item, p: AuditPool) {
    IsCanonicalId(item.key) && UsableInAudit(item.value, p)
  }

  predicate More(doc: Doc, pos: nat) {
    pos < |doc| && doc[pos] != ObjClose && doc[pos] != ArrClose
  }

  /** Any object held at the same place extends the members read so far. */
  lemma HeldExtends(doc: Doc, at: nat, items: seq<Item>, full: seq<Item>)
    requires Opens(doc, at, items) && Holds(doc, at, full)
    ensures |items| <= |full| && full[..|items|] == items
    ensures at + 1 + 2 * |items| < |doc|
    ensures |items| == |full| <==> doc[at + 1 + 2 * |items|] == ObjClose
    ensures |items| < |full| ==> Member(doc, at + 1 + 2 * |items|, full[|items|])
  {
    forall i | 0 <= i < |items| ensures doc[at + 1 + 2 * i] != ObjClose {
      assert Member(doc, at + 1 + 2 * i, items[i]);
    }
    forall i | 0 <= i < |items| ensures full[i] == items[i] {
      assert Member(doc, at + 1 + 2 * i, items[i]) && Member(doc, at + 1 + 2 * i, full[i]);
    }
    if |items| < |full| {
      assert Member(doc, at + 1 + 2 * |items|, full[|items|]);
    }
  }

  /** Reading one more member keeps what is known about the members so far. */
  lemma ReadMember(doc: Doc, at: nat, items: seq<Item>, item: Item, p: AuditPool)
    requires Opens(doc, at, items) && Good(items, p) && GoodItem(item, p)
    requires at + 2 + 2 * |items| < |doc| && Member(doc, at + 1 + 2 * |items|, item)
    requires item.key !in MapOf(items) && item.value !in MapOf(items).Values
    ensures Opens(doc, at, items + [item]) && Good(items + [item], p)
    ensures MapOf(items + [item]) == MapOf(items)[item.key := item.value]
    ensures MapOf(items + [item]).Values == MapOf(items).Values + {item.value}
  {
    hide GoodItem, Good, Opens, Member, MapOf;
    OpensMore(doc, at, items, item);
    GoodMore(items, item, p);
    MapMore(items, item);
    NewKeyValues(MapOf(items), item.key, item.value);
  }

  lemma MapMore(items: seq<Item>, item: Item)
    ensures MapOf(items + [item]) == MapOf(items)[item.key := item.value]
  {
    assert (items + [item])[..|items|] == items;
  }

  lemma NewKeyValues(m: map<string, string>, k: string, v: string)
    requires k !in m
    ensures m[k := v].Values == m.Values + {v}
  {
    var m' := m[k := v];
    forall x | x in m.Values ensures x in m'.Values {
      var i :| i in m && m[i] == x;
      assert m'[i] == x;
    }
    assert m'[k] == v;
  }

  lemma OpensMore(doc: Doc, at: nat, items: seq<Item>, item: Item)
    requires Opens(doc, at, items)
    requires at + 2 + 2 * |items| < |doc| && Member(doc, at + 1 + 2 * |items|, item)
    ensures Opens(doc, at, items + [item])
  {
  }

  lemma GoodMore(items: seq<Item>, item: Item, p: AuditPool)
    requires Good(items, p) && GoodItem(item, p)
    requires item.key !in MapOf(items) && item.value !in MapOf(items).Values
    ensures Good(items + [item], p)
  {
    hide MapOf, GoodItem;
    MapOfExact(items);
    forall i | 0 <= i < |items| ensures items[i].value in MapOf(items).Values {
      assert MapOf(items)[items[i].key] == items[i].value;
    }
  }

  /** A bad member spoils every object that could be held here. */
  lemma BadMember(doc: Doc, at: nat, items: seq<Item>, item: Item, full: seq<Item>, p: AuditPool)
    requires Opens(doc, at, items) && Good(items, p) && Holds(doc, at, full)
    requires at + 2 + 2 * |items| < |doc| && Member(doc, at + 1 + 2 * |items|, item)
    requires !GoodItem(item, p) || item.key in MapOf(items) || item.value in MapOf(items).Values
    ensures !Good(full, p)
  {
    hide GoodItem, MapOf, Opens, Holds, IsCanonicalId, UsableInAudit;
    HeldExtends(doc, at, items, full);
    assert full[|items|] == item;
    if item.key in MapOf(items) || item.value in MapOf(items).Values {
      var i := Clash(items, item);
      assert full[i] == full[..|items|][i];
    }
  }

  /** A repeated key or value is that of an earlier member. */
  lemma Clash(items: seq<Item>, item: Item) returns (i: nat)
    requires DistinctKeys(items) && (item.key in MapOf(items) || item.value in MapOf(items).Values)
    ensures i < |items| && (items[i].key == item.key || items[i].value == item.value)
  {
    MapOfExact(items);
    hide MapOf;
    var k := item.key;
    if k !in MapOf(items) {
      k :| k in MapOf(items) && MapOf(items)[k] == item.value;
    }
    i :| 0 <= i < |items| && items[i].key == k;
  }

  /** Read the inner object at `at`: accepted exactly when it holds good members, and then
      the result is their map and the position just after the closing brace. */
  method DecodeAllocations(doc: Doc, at: nat, p: AuditPool) returns (r: Result<map<string, string>>, pos: nat)
    requires at <= |doc|
    ensures r.Ok? ==> exists items :: Holds(doc, at, items) && Good(items, p) && r.value == MapOf(items) &&
                                      pos == at + 2 + 2 * |items|
    ensures r.Err? ==> forall items :: Holds(doc, at, items) ==> !Good(items, p)
    ensures r.Ok? ==> at < pos <= |doc|
  {
    pos := at;
    if at == |doc| || doc[at] != ObjOpen {
      return Err, pos;
    }
    pos := at + 1;
    var allocations: map<string, string> := map[];
    var seenIPs: set<string> := {};
    ghost var items: seq<Item> := [];
    assert allocations == MapOf(items);
    hide UsableInAudit, IsCanonicalId, GoodItem, MapOf;
    while More(doc, pos)
      invariant pos == at + 1 + 2 * |items| <= |doc|
      invariant Opens(doc, at, items) && Good(items, p)
      invariant allocations == MapOf(items) && seenIPs == allocations.Values
      decreases |doc| - pos
    {
      if pos + 1 >= |doc| || !doc[pos].Str? || !doc[pos + 1].Str? {
        forall full ensures !Holds(doc, at, full) {
          if Holds(doc, at, full) {
            HeldExtends(doc, at, items, full);
          }
        }
        return Err, pos;
      }
      var item := Item(doc[pos].text, doc[pos + 1].text);
      assert Member(doc, pos, item);
      if !GoodItem(item, p) || item.key in allocations || item.value in seenIPs {
        forall full | Holds(doc, at, full) ensures !Good(full, p) {
          BadMember(doc, at, items, item, full, p);
        }
        return Err, pos;
      }
      ReadMember(doc, at, items, item, p);
      seenIPs := seenIPs + {item.value};
      allocations := allocations[item.key := item.value];
      items := items + [item];
      pos := pos + 2;
    }
    if pos >= |doc| || doc[pos] != ObjClose {
      forall full ensures !Holds(doc, at, full) {
        if Holds(doc, at, full) {
          HeldExtends(doc, at, items, full);
        }
      }
      return Err, pos;
    }
    assert Holds(doc, at, items);
    return Ok(allocations), pos + 1;
  }

  /** The whole strict reader: it accepts exactly the documents {"allocated": {good members}},
      so an unknown or repeated top-level key, a repeated task id or address, a bad id or
      address, and trailing input are all errors. */
  method ParseAllocations(doc: Doc, p: AuditPool) returns (r: Result<map<string, string>>)
    ensures r.Ok? ==> exists items :: IsDoc(doc, items) && Good(items, p) && r.value == MapOf(items)
    ensures r.Err? ==> forall items :: IsDoc(doc, items) ==> !Good(items, p)
    ensures forall items :: IsDoc(doc, items) && Good(items, p) ==> r == Ok(MapOf(items))
  {
    hide Good, MapOf;
    if |doc| == 0 || doc[0] != ObjOpen {
      return Err;
    }
    var pos := 1;
    var allocations: Option<map<string, string>> := None;
    var seen: set<string> := {};
    ghost var inner: seq<Item> := [];
    while More(doc, pos)
      invariant 1 <= pos <= |doc|
      invariant allocations.None? ==> pos == 1 && seen == {}
      invariant allocations.Some? ==>
                  && pos >= 2 && doc[1] == Str("allocated") && Holds(doc, 2, inner) && Good(inner, p)
                  && allocations.value == MapOf(inner) && pos == 4 + 2 * |inner| && seen == {"allocated"}
      decreases |doc| - pos
    {
      assert allocations.Some? ==> forall items :: !IsDoc(doc, items) by {
        forall items ensures allocations.Some? ==> !IsDoc(doc, items) {
          if allocations.Some? && Holds(doc, 2, items) {
            HeldExtends(doc, 2, inner, items);
          }
        }
      }
      if !doc[pos].Str? || doc[pos].text in seen || doc[pos].text != "allocated" {
        return Err;
      }
      seen := seen + {doc[pos].text};
      var decoded, next := DecodeAllocations(doc, pos + 1, p);
      if decoded.Err? {
        return Err;
      }
      inner :| Holds(doc, pos + 1, inner) && Good(inner, p) && decoded.value == MapOf(inner) &&
               next == pos + 3 + 2 * |inner|;
      allocations := Some(decoded.value);
      pos := next;
    }
    forall items | allocations.Some? && IsDoc(doc, items) ensures items == inner {
      HeldExtends(doc, 2, items, inner);
    }
    if pos >= |doc| || doc[pos] != ObjClose || pos + 1 != |doc| || allocations.None? {
      return Err;
    }
    assert IsDoc(doc, inner);
    forall items | IsDoc(doc, items) ensures items == inner {
      DocIsUnique(doc, items, inner);
    }
    return Ok(allocations.value);
  }

  /** Every map a /24 pool can hold with canonical ids is accepted by the audit, as that map. */
  lemma RenderedIsGood(doc: Doc, m: map<string, string>, p: AuditPool, items: seq<Item>)
    requires IsDoc(doc, items) && DistinctKeys(items) && MapOf(items) == m
    ensures Good(items, p) <==>
              Injective(m) && forall k :: k in m ==> IsCanonicalId(k) && UsableInAudit(m[k], p)
  {
    MapOfExact(items);
    hide MapOf, IsCanonicalId, UsableInAudit;
    if Good(items, p) {
      forall k, k' | k in m && k' in m && m[k] == m[k'] ensures k == k' {
        var i :| 0 <= i < |items| && items[i].key == k;
        var j :| 0 <= j < |items| && items[j].key == k';
      }
      forall k | k in m ensures IsCanonicalId(k) && UsableInAudit(m[k], p) {
        var i :| 0 <= i < |items| && items[i].key == k;
        assert GoodItem(items[i], p);
      }
    }
  }
}
