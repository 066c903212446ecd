// Lru.dfy: the fixed-capacity cache with lazy expiry behind the kiosk check-in.
// List elements are shared between the recency list and the key index, and are
// changed in place.
module Lru {
  import opened Prelude

  // One cache line as a value.
  datatype Item<V> = Item(key: string, value: V, expiresAt: int)

  // ---- specification on values, most recent first ------------------------

  predicate Has<V>(c: seq<Item<V>>, key: string) {
    exists i :: 0 <= i < |c| && c[i].key == key
  }

  predicate DistinctKeys<V>(c: seq<Item<V>>) {
    forall i, j :: 0 <= i < j < |c| ==> c[i].key != c[j].key
  }

  predicate Sized<V>(c: seq<Item<V>>, max: int) {
    DistinctKeys(c) && |c| <= max
  }

  function IndexOf<V>(c: seq<Item<V>>, key: string): (i: nat)
    requires Has(c, key)
    ensures i < |c| && c[i].key == key && forall j :: 0 <= j < i ==> c[j].key != key
  {
    if c[0].key == key then 0
    else
      assert Has(c[1..], key) by {
        var i :| 0 <= i < |c| && c[i].key == key;
        assert c[1..][i - 1] == c[i];
      }
      var rest := IndexOf(c[1..], key);
      assert forall j :: 1 <= j < rest + 1 ==> c[j] == c[1..][j - 1];
      rest + 1
  }

  function Without<T>(s: seq<T>, i: nat): seq<T>
    requires i < |s|
  {
    s[..i] + s[i + 1..]
  }

  // Get: an expired line is dropped, a live one moves to the front.
  function GetStep<V>(c: seq<Item<V>>, key: string, now: int): (seq<Item<V>>, Option<V>) {
    if !Has(c, key) then (c, None)
    else
      var i := IndexOf(c, key);
      if now >= c[i].expiresAt then (Without(c, i), None)
      else ([c[i]] + Without(c, i), Some(c[i].value))
  }

  // Set: refresh or insert at the front, then drop the last line if there are too many.
  function SetStep<V>(c: seq<Item<V>>, max: int, key: string, value: V, expiresAt: int): seq<Item<V>> {
    var line := Item(key, value, expiresAt);
    if Has(c, key) then [line] + Without(c, IndexOf(c, key))
    else
      var grown := [line] + c;
      if |grown| > max then grown[..|grown| - 1] else grown
  }

  // ---- the implementation ------------------------------------------------

  class Element<V> {
    const key: string
    var value: V
    var expiresAt: int

    constructor (key: string, value: V, expiresAt: int)
      ensures this.key == key && this.value == value && this.expiresAt == expiresAt
    {
      this.key, this.value, this.expiresAt := key, value, expiresAt;
    }
  }

  // The list of elements seen as values.
  ghost function Lines<V>(els: seq<Element<V>>): (c: seq<Item<V>>)
    reads els
    ensures |c| == |els|
    ensures forall i :: 0 <= i < |els| ==> c[i] == Item(els[i].key, els[i].value, els[i].expiresAt)
  {
    seq(|els|, i requires 0 <= i < |els| reads els => Item(els[i].key, els[i].value, els[i].expiresAt))
  }

  predicate DistinctElements<V>(els: seq<Element<V>>) {
    forall i, j :: 0 <= i < j < |els| ==> els[i].key != els[j].key
  }

  // The index knows the elements of the list, and no others.
  ghost predicate Indexed<V>(els: seq<Element<V>>, items: map<string, Element<V>>) {
    && DistinctElements(els)
    && (forall i :: 0 <= i < |els| ==> els[i].key in items && items[els[i].key] == els[i])
    && (forall k :: k in items ==> items[k].key == k && items[k] in els)
  }

  lemma IndexedMeansHas<V>(els: seq<Element<V>>, items: map<string, Element<V>>, key: string)
    requires Indexed(els, items)
    ensures key in items <==> Has(Lines(els), key)
  {
    if key in items {
      var i :| 0 <= i < |els| && els[i] == items[key];
      assert Lines(els)[i].key == key;
    }
  }

  lemma PositionOf<V>(els: seq<Element<V>>, i: nat)
    requires DistinctElements(els) && i < |els|
    ensures Has(Lines(els), els[i].key) && IndexOf(Lines(els), els[i].key) == i
  {
    assert Lines(els)[i].key == els[i].key;
    var j := IndexOf(Lines(els), els[i].key);
    assert els[j].key == els[i].key;
  }

  lemma WithoutAt<T>(s: seq<T>, i: nat)
    requires i < |s|
    ensures |Without(s, i)| == |s| - 1
    ensures forall j :: 0 <= j < |s| - 1 ==> Without(s, i)[j] == s[if j < i then j else j + 1]
  {
  }

  lemma LinesWithout<V>(els: seq<Element<V>>, i: nat)
    requires i < |els|
    ensures Lines(Without(els, i)) == Without(Lines(els), i)
  {
  }

  lemma IndexedWithout<V>(els: seq<Element<V>>, items: map<string, Element<V>>, i: nat)
    requires Indexed(els, items) && i < |els|
    ensures Indexed(Without(els, i), items - {els[i].key})
  {
    var rest, left := Without(els, i), items - {els[i].key};
    WithoutAt(els, i);
    forall k | k in left
      ensures left[k] in rest
    {
      var j :| 0 <= j < |els| && els[j] == items[k];
      assert rest[if j < i then j else j - 1] == els[j];
    }
  }

  lemma IndexedFront<V>(els: seq<Element<V>>, items: map<string, Element<V>>, el: Element<V>)
    requires Indexed(els, items) && el.key !in items
    ensures Indexed([el] + els, items[el.key := el])
  {
    var more := [el] + els;
    forall k | k in items
      ensures items[k] in more
    {
      var j :| 0 <= j < |els| && els[j] == items[k];
      assert more[j + 1] == els[j];
    }
  }

  lemma LinesFront<V>(els: seq<Element<V>>, el: Element<V>)
    ensures Lines([el] + els) == [Item(el.key, el.value, el.expiresAt)] + Lines(els)
  {
  }

  // Element i taken to the front.
  lemma FrontOf<V>(els: seq<Element<V>>, items: map<string, Element<V>>, i: nat)
    requires Indexed(els, items) && i < |els|
    ensures Indexed([els[i]] + Without(els, i), items)
    ensures Lines([els[i]] + Without(els, i)) == [Lines(els)[i]] + Without(Lines(els), i)
    ensures |[els[i]] + Without(els, i)| == |els|
    ensures forall e :: e in [els[i]] + Without(els, i) ==> e in els
  {
    var el, left := els[i], items - {els[i].key};
    IndexedWithout(els, items, i);
    LinesWithout(els, i);
    IndexedFront(Without(els, i), left, el);
    assert items == left[el.key := el];
    LinesFront(Without(els, i), el);
    WithoutAt(els, i);
  }

  class Cache<V> {
    const maxEntries: int
    const ttl: int
    var ll: seq<Element<V>>
    var items: map<string, Element<V>>

    ghost predicate Valid()
      reads this
    {
      1 <= maxEntries && |ll| <= maxEntries && Indexed(ll, items)
    }

    ghost function Contents(): seq<Item<V>>
      reads this, ll
    {
      Lines(ll)
    }

    constructor (maxEntries: int, ttl: int)
      ensures Valid() && Contents() == []
      ensures this.maxEntries == (if maxEntries <= 0 then 1 else maxEntries) && this.ttl == ttl
    {
      this.maxEntries := if maxEntries <= 0 then 1 else maxEntries;
      this.ttl := ttl;
      ll, items := [], map[];
    }

    method MoveToFront(el: Element<V>)
      requires Valid() && el in ll
      modifies this`ll
      ensures Valid() && Has(old(Contents()), el.key)
      ensures var c := old(Contents()); var i := IndexOf(c, el.key); Contents() == [c[i]] + Without(c, i)
      ensures forall e :: e in ll ==> e in old(ll)
    {
      var i: nat :| i < |ll| && ll[i] == el;
      PositionOf(ll, i);
      FrontOf(ll, items, i);
      ll := [el] + Without(ll, i);
    }

    // Detaches the element from the list and from the index.
    method RemoveElement(el: Element<V>)
      requires Indexed(ll, items) && el in ll
      modifies this
      ensures Indexed(ll, items) && Has(old(Contents()), el.key) && |ll| == |old(ll)| - 1
      ensures var c := old(Contents()); Contents() == Without(c, IndexOf(c, el.key))
      ensures forall e :: e in ll ==> e in old(ll)
    {
      var i: nat :| i < |ll| && ll[i] == el;
      PositionOf(ll, i);
      IndexedWithout(ll, items, i);
      LinesWithout(ll, i);
      ll, items := Without(ll, i), items - {el.key};
    }

    method RemoveOldest()
      requires Indexed(ll, items)
      modifies this
      ensures Indexed(ll, items)
      ensures old(ll) == [] ==> ll == []
      ensures old(ll) != [] ==> |ll| == |old(ll)| - 1 && Contents() == old(Contents())[..|ll|]
    {
      if ll != [] {
        PositionOf(ll, |ll| - 1);
        RemoveElement(ll[|ll| - 1]);
      }
    }

    method Get(key: string, now: int) returns (hit: Option<V>)
      requires Valid()
      modifies this
      ensures Valid()
      ensures (Contents(), hit) == GetStep(old(Contents()), key, now)
      ensures forall e :: e in ll ==> e in old(ll)
    {
      IndexedMeansHas(ll, items, key);
      if key !in items { return None; }
      var el := items[key];
      ghost var i: nat :| i < |ll| && ll[i] == el;
      PositionOf(ll, i);
      if now >= el.expiresAt {
        RemoveElement(el);
        return None;
      }
      MoveToFront(el);
      return Some(el.value);
    }

    // Set on a key the cache holds: the shared element is rewritten in place.
    method Refresh(el: Element<V>, value: V, now: int)
      requires Valid() && el in ll
      modifies this`ll, el
      ensures Valid()
      ensures Has(old(Contents()), el.key)
      ensures var c := old(Contents());
        Contents() == [Item(el.key, value, now + ttl)] + Without(c, IndexOf(c, el.key))
    {
      ghost var before := Contents();
      ghost var i: nat :| i < |ll| && ll[i] == el;
      PositionOf(ll, i);
      el.value, el.expiresAt := value, now + ttl;
      assert Contents() == before[i := Item(el.key, value, now + ttl)];
      Refreshed(before, Contents(), i, Item(el.key, value, now + ttl));
      MoveToFront(el);
    }

    // Set on a new key: a fresh element in front, and the oldest one out if it does not fit.
    method Insert(key: string, value: V, now: int)
      requires Valid() && key !in items
      modifies this
      ensures Valid()
      ensures var grown := [Item(key, value, now + ttl)] + old(Contents());
        Contents() == if |grown| > maxEntries then grown[..|grown| - 1] else grown
    {
      ghost var grown := [Item(key, value, now + ttl)] + Contents();
      PushFront(key, value, now + ttl);
      assert Contents() == grown;
      if |ll| > maxEntries {
        RemoveOldest();
        assert Contents() == grown[..|ll|];
      }
    }

    // A fresh element in front of the list and in the index.
    method PushFront(key: string, value: V, expiresAt: int)
      requires Indexed(ll, items) && key !in items
      modifies this
      ensures Indexed(ll, items) && |ll| == |old(ll)| + 1
      ensures Contents() == [Item(key, value, expiresAt)] + old(Contents())
    {
      var el := new Element(key, value, expiresAt);
      IndexedFront(ll, items, el);
      LinesFront(ll, el);
      ll, items := [el] + ll, items[key := el];
    }

    method Set(key: string, value: V, now: int)
      requires Valid()
      modifies this, ll
      ensures Valid()
      ensures Contents() == SetStep(old(Contents()), maxEntries, key, value, now + ttl)
    {
      IndexedMeansHas(ll, items, key);
      if key in items {
        Refresh(items[key], value, now);
      } else {
        Insert(key, value, now);
      }
    }
  }

  // Writing through the shared element changes one line and moves none.
  lemma Refreshed<V>(before: seq<Item<V>>, after: seq<Item<V>>, i: nat, line: Item<V>)
    requires DistinctKeys(before) && i < |before| && before[i].key == line.key && after == before[i := line]
    ensures Has(after, line.key) && IndexOf(after, line.key) == i
    ensures Has(before, line.key) && Without(after, i) == Without(before, i)
  {
    assert after[i].key == line.key && before[i].key == line.key;
    var j := IndexOf(after, line.key);
    assert before[j].key == line.key;
  }

  // ---- runs --------------------------------------------------------------

  datatype Op<V> = GetOp(key: string, now: int) | SetOp(key: string, value: V, now: int)

  function Apply<V>(c: seq<Item<V>>, max: int, ttl: int, op: Op<V>): seq<Item<V>> {
    match op
    case GetOp(key, now) => GetStep(c, key, now).0
    case SetOp(key, value, now) => SetStep(c, max, key, value, now + ttl)
  }

  // The operation sets its key or finds it alive.
  predicate Touches<V>(c: seq<Item<V>>, op: Op<V>) {
    op.SetOp? || GetStep(c, op.key, op.now).1.Some?
  }

  lemma ApplyKeepsSize<V>(c: seq<Item<V>>, max: int, ttl: int, op: Op<V>)
    requires 1 <= max && Sized(c, max)
    ensures Sized(Apply(c, max, ttl, op), max)
  {
    if Has(c, op.key) { WithoutKeepsDistinct(c, IndexOf(c, op.key)); }
  }

  lemma WithoutKeepsDistinct<V>(c: seq<Item<V>>, i: nat)
    requires DistinctKeys(c) && i < |c|
    ensures DistinctKeys(Without(c, i)) && |Without(c, i)| == |c| - 1
    ensures forall j :: 0 <= j < |Without(c, i)| ==> Without(c, i)[j].key != c[i].key
  {
    WithoutAt(c, i);
  }

  // Line i of the cache is `line`, and every key in front of it is one of `ahead`.
  ghost predicate Behind<V>(c: seq<Item<V>>, i: nat, line: Item<V>, ahead: set<string>) {
    i < |c| && c[i] == line && forall j :: 0 <= j < i ==> c[j].key in ahead
  }

  ghost predicate Recent<V>(c: seq<Item<V>>, line: Item<V>, ahead: set<string>) {
    exists i :: Behind(c, i, line, ahead)
  }

  lemma {:induction false} PrefixFits<V>(c: seq<Item<V>>, i: nat, ahead: set<string>)
    requires DistinctKeys(c) && i <= |c| && forall j :: 0 <= j < i ==> c[j].key in ahead
    ensures i <= |ahead|
  {
    if i > 0 {
      PrefixFits(c, i - 1, ahead - {c[i - 1].key});
    }
  }

  lemma DropKeeps<V>(c: seq<Item<V>>, p: nat, i: nat, line: Item<V>, ahead: set<string>)
    requires Behind(c, i, line, ahead) && p < |c| && p != i
    ensures Behind(Without(c, p), if p < i then i - 1 else i, line, ahead)
  {
  }

  lemma FrontKeeps<V>(c: seq<Item<V>>, front: Item<V>, i: nat, line: Item<V>, ahead: set<string>)
    requires Behind(c, i, line, ahead)
    ensures Behind([front] + c, i + 1, line, ahead + {front.key})
  {
  }

  // One operation on another key: the line stays, behind that key at most.
  lemma OtherKeyKeeps<V>(c: seq<Item<V>>, max: int, ttl: int, op: Op<V>, line: Item<V>, ahead: set<string>)
    requires Sized(c, max) && Recent(c, line, ahead) && op.key != line.key
    requires Touches(c, op) ==> |ahead + {op.key}| < max
    ensures Recent(Apply(c, max, ttl, op), line, if Touches(c, op) then ahead + {op.key} else ahead)
  {
    var i :| Behind(c, i, line, ahead);
    if Has(c, op.key) {
      var p := IndexOf(c, op.key);
      DropKeeps(c, p, i, line, ahead);
      var j := if p < i then i - 1 else i;
      var front := Apply(c, max, ttl, op)[0];
      if Touches(c, op) {
        FrontKeeps(Without(c, p), front, j, line, ahead);
        assert Behind(Apply(c, max, ttl, op), j + 1, line, ahead + {op.key});
      } else {
        assert Behind(Apply(c, max, ttl, op), j, line, ahead);
      }
    } else if op.SetOp? {
      var front := Item(op.key, op.value, op.now + ttl);
      FrontKeeps(c, front, i, line, ahead);
      PrefixFits([front] + c, i + 1, ahead + {op.key});
      assert Behind(Apply(c, max, ttl, op), i + 1, line, ahead + {op.key});
    } else {
      assert Behind(c, i, line, ahead);
    }
  }

  // Reading the line before it expires returns its value and brings it to the front.
  lemma OwnReadHits<V>(c: seq<Item<V>>, line: Item<V>, ahead: set<string>, now: int)
    requires DistinctKeys(c) && Recent(c, line, ahead) && now < line.expiresAt
    ensures GetStep(c, line.key, now).1 == Some(line.value)
    ensures Recent(GetStep(c, line.key, now).0, line, {})
  {
    var i :| Behind(c, i, line, ahead);
    assert Has(c, line.key) && IndexOf(c, line.key) == i;
    assert Behind(GetStep(c, line.key, now).0, 0, line, {});
  }

  function Play<V>(c: seq<Item<V>>, max: int, ttl: int, ops: seq<Op<V>>): seq<Item<V>>
    decreases |ops|
  {
    if ops == [] then c else Play(Apply(c, max, ttl, ops[0]), max, ttl, ops[1..])
  }

  // The distinct other keys set or hit since the last touch of `key`.
  function OthersSince<V>(c: seq<Item<V>>, key: string, op: Op<V>, others: set<string>): set<string> {
    if op.key == key then {} else if Touches(c, op) then others + {op.key} else others
  }

  // Along the run the line is not set again, it is read only before it expires, and
  // always fewer than `max` distinct other keys have been touched since it was.
  ghost predicate KeptAlive<V>(c: seq<Item<V>>, max: int, ttl: int, line: Item<V>, ops: seq<Op<V>>, others: set<string>)
    decreases |ops|
  {
    ops == [] ||
    (var op := ops[0];
     && (op.key == line.key ==> op.GetOp? && op.now < line.expiresAt)
     && (op.key != line.key && Touches(c, op) ==> |others + {op.key}| < max)
     && KeptAlive(Apply(c, max, ttl, op), max, ttl, line, ops[1..], OthersSince(c, line.key, op, others)))
  }

  lemma {:induction false} RunKeepsLine<V>(c: seq<Item<V>>, max: int, ttl: int, line: Item<V>, ops: seq<Op<V>>,
                                            others: set<string>)
    requires 1 <= max && Sized(c, max) && Recent(c, line, others) && KeptAlive(c, max, ttl, line, ops, others)
    ensures Sized(Play(c, max, ttl, ops), max) && exists ahead :: Recent(Play(c, max, ttl, ops), line, ahead)
    decreases |ops|
  {
    if ops != [] {
      var op := ops[0];
      ApplyKeepsSize(c, max, ttl, op);
      if op.key == line.key {
        OwnReadHits(c, line, others, op.now);
      } else {
        OtherKeyKeeps(c, max, ttl, op, line, others);
      }
      RunKeepsLine(Apply(c, max, ttl, op), max, ttl, line, ops[1..], OthersSince(c, line.key, op, others));
    }
  }

  // Whatever the cache held when `key` was set, a read of it before the expiry is a
  // hit with that value, as long as always fewer than `max` distinct other keys were
  // set or hit since the key was last touched.
  lemma UnexpiredKeyHits<V>(c: seq<Item<V>>, max: int, ttl: int, key: string, value: V, at: int, ops: seq<Op<V>>,
                            now: int)
    requires 1 <= max && Sized(c, max) && now < at + ttl
    requires KeptAlive(SetStep(c, max, key, value, at + ttl), max, ttl, Item(key, value, at + ttl), ops, {})
    ensures GetStep(Play(SetStep(c, max, key, value, at + ttl), max, ttl, ops), key, now).1 == Some(value)
  {
    var line := Item(key, value, at + ttl);
    var c1 := SetStep(c, max, key, value, at + ttl);
    ApplyKeepsSize(c, max, ttl, SetOp(key, value, at));
    assert Behind(c1, 0, line, {});
    RunKeepsLine(c1, max, ttl, line, ops, {});
    var ahead :| Recent(Play(c1, max, ttl, ops), line, ahead);
    OwnReadHits(Play(c1, max, ttl, ops), line, ahead, now);
  }

  // ---- what a hit returns --------------------------------------------------

  // Every line is what the last Set of its key stored.
  ghost predicate Faithful<V>(c: seq<Item<V>>, stored: map<string, Item<V>>) {
    forall i :: 0 <= i < |c| ==> c[i].key in stored && stored[c[i].key] == c[i]
  }

  function Stored<V>(ttl: int, op: Op<V>, stored: map<string, Item<V>>): map<string, Item<V>> {
    match op
    case GetOp(_, _) => stored
    case SetOp(key, value, now) => stored[key := Item(key, value, now + ttl)]
  }

  function StoredBy<V>(ttl: int, ops: seq<Op<V>>, stored: map<string, Item<V>>): map<string, Item<V>>
    decreases |ops|
  {
    if ops == [] then stored else StoredBy(ttl, ops[1..], Stored(ttl, ops[0], stored))
  }

  lemma ApplyKeepsFaithful<V>(c: seq<Item<V>>, max: int, ttl: int, op: Op<V>, stored: map<string, Item<V>>)
    requires DistinctKeys(c) && Faithful(c, stored)
    ensures Faithful(Apply(c, max, ttl, op), Stored(ttl, op, stored))
  {
  }

  // A hit returns the value of the last Set of that key, and never after its expiry.
  lemma {:induction false} HitIsLastSet<V>(c: seq<Item<V>>, max: int, ttl: int, ops: seq<Op<V>>,
                                            stored: map<string, Item<V>>, key: string, now: int)
    requires 1 <= max && Sized(c, max) && Faithful(c, stored)
    ensures var hit := GetStep(Play(c, max, ttl, ops), key, now).1;
      hit.Some? ==>
        && key in StoredBy(ttl, ops, stored)
        && hit.value == StoredBy(ttl, ops, stored)[key].value
        && now < StoredBy(ttl, ops, stored)[key].expiresAt
    decreases |ops|
  {
    if ops != [] {
      ApplyKeepsSize(c, max, ttl, ops[0]);
      ApplyKeepsFaithful(c, max, ttl, ops[0], stored);
      HitIsLastSet(Apply(c, max, ttl, ops[0]), max, ttl, ops[1..], Stored(ttl, ops[0], stored), key, now);
    }
  }

  // ---- recency order -----------------------------------------------------

  // When each key was last touched, as the number of the operation.
  function Stamps<V>(c: seq<Item<V>>, op: Op<V>, n: nat, stamps: map<string, nat>): map<string, nat> {
    if Touches(c, op) then stamps[op.key := n] else stamps
  }

  // The list is in order of last touch, most recent first.
  predicate InRecencyOrder<V>(c: seq<Item<V>>, n: nat, stamps: map<string, nat>) {
    && DistinctKeys(c)
    && (forall i :: 0 <= i < |c| ==> c[i].key in stamps && stamps[c[i].key] < n)
    && (forall i, j :: 0 <= i < j < |c| ==>
      c[i].key in stamps && c[j].key in stamps && stamps[c[i].key] > stamps[c[j].key])
  }

  lemma OrderWithout<V>(c: seq<Item<V>>, n: nat, stamps: map<string, nat>, p: nat)
    requires InRecencyOrder(c, n, stamps) && p < |c|
    ensures InRecencyOrder(Without(c, p), n, stamps)
    ensures forall i :: 0 <= i < |Without(c, p)| ==> Without(c, p)[i].key != c[p].key
  {
  }

  lemma OrderFront<V>(c: seq<Item<V>>, n: nat, stamps: map<string, nat>, front: Item<V>)
    requires InRecencyOrder(c, n, stamps) && forall i :: 0 <= i < |c| ==> c[i].key != front.key
    ensures InRecencyOrder([front] + c, n + 1, stamps[front.key := n])
  {
  }

  lemma ApplyKeepsOrder<V>(c: seq<Item<V>>, max: int, ttl: int, op: Op<V>, n: nat, stamps: map<string, nat>)
    requires 1 <= max && InRecencyOrder(c, n, stamps)
    ensures InRecencyOrder(Apply(c, max, ttl, op), n + 1, Stamps(c, op, n, stamps))
  {
    if Has(c, op.key) {
      var p := IndexOf(c, op.key);
      OrderWithout(c, n, stamps, p);
      if Touches(c, op) {
        OrderFront(Without(c, p), n, stamps, Apply(c, max, ttl, op)[0]);
      }
    } else if op.SetOp? {
      OrderFront(c, n, stamps, Item(op.key, op.value, op.now + ttl));
    }
  }
}
