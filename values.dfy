/** JavaScript values as the relay's configuration code sees them, the
    deep copy `clone`, the merge `extend` and the type tests `isArray` and
    `isObject` of windowname.js.

    Arrays and plain objects carry an identity `id`, so that the model can say
    which containers a copy shares with its input. An object is an ordered list
    of own enumerable entries (insertion order). A `Node` is a host object that
    is handed around by reference: a DOM element, or anything else that is
    neither an array nor a plain object. */
module Values {

  datatype Option<T> = None | Some(value: T)

  datatype Value =
    | Undefined
    | Null
    | Bool(b: bool)
    | Num(n: int)
    | Str(s: string)
    | Arr(id: nat, items: seq<Value>)
    | Obj(id: nat, entries: seq<Entry>)
    | Node(ref: nat)

  datatype Entry = Entry(key: string, val: Value)

  /** JavaScript truthiness (NaN is not modelled). */
  predicate Truthy(v: Value) {
    match v
    case Undefined => false
    case Null => false
    case Bool(b) => b
    case Num(n) => n != 0
    case Str(s) => s != ""
    case _ => true
  }

  // ---------------------------------------------------------------------
  // Objects as ordered entry lists

  function Keys(es: seq<Entry>): (ks: seq<string>)
    ensures |ks| == |es|
    ensures forall i :: 0 <= i < |es| ==> ks[i] == es[i].key
  {
    if es == [] then [] else [es[0].key] + Keys(es[1..])
  }

  predicate DistinctKeys(es: seq<Entry>) {
    forall i, j :: 0 <= i < j < |es| ==> es[i].key != es[j].key
  }

  /** The value stored under `k`, if `k` is an own key. */
  function Find(es: seq<Entry>, k: string): (r: Option<Value>)
    ensures r.Some? <==> k in Keys(es)
  {
    if es == [] then None
    else if es[0].key == k then Some(es[0].val)
    else Find(es[1..], k)
  }

  /** A property read: `undefined` for a missing key. */
  function Get(es: seq<Entry>, k: string): Value {
    match Find(es, k)
    case Some(v) => v
    case None => Undefined
  }

  lemma {:induction false} FindAt(es: seq<Entry>, i: nat)
    requires DistinctKeys(es) && i < |es|
    ensures Find(es, es[i].key) == Some(es[i].val)
  {
    if i > 0 {
      assert DistinctKeys(es[1..]);
      FindAt(es[1..], i - 1);
    }
  }

  lemma {:induction false} FindAppend(es: seq<Entry>, e: Entry, k: string)
    ensures Find(es + [e], k) == if k in Keys(es) then Find(es, k) else if k == e.key then Some(e.val) else None
  {
    if es != [] {
      assert (es + [e])[1..] == es[1..] + [e];
      FindAppend(es[1..], e, k);
    }
  }

  /** Property assignment `o[k] = v`: an existing key keeps its place, a new
      key goes last. */
  function Put(es: seq<Entry>, k: string, v: Value): (r: seq<Entry>)
    ensures Find(r, k) == Some(v)
    ensures forall k' :: k' != k ==> Find(r, k') == Find(es, k')
    ensures k in Keys(es) ==> Keys(r) == Keys(es)
    ensures k !in Keys(es) ==> Keys(r) == Keys(es) + [k]
  {
    if es == [] then [Entry(k, v)]
    else if es[0].key == k then
      assert ([Entry(k, v)] + es[1..])[1..] == es[1..];
      [Entry(k, v)] + es[1..]
    else
      var rest := Put(es[1..], k, v);
      var r := [es[0]] + rest;
      assert r[1..] == rest;
      assert Find(r, k) == Find(rest, k);
      r
  }

  lemma PutDistinct(es: seq<Entry>, k: string, v: Value)
    requires DistinctKeys(es)
    ensures DistinctKeys(Put(es, k, v))
  {
    var r := Put(es, k, v);
    forall i, j | 0 <= i < j < |r| ensures r[i].key != r[j].key {
      assert Keys(r)[i] == r[i].key && Keys(r)[j] == r[j].key;
      if k !in Keys(es) && j == |es| {
        assert Keys(es)[i] == es[i].key;
      } else {
        assert Keys(es)[i] == es[i].key && Keys(es)[j] == es[j].key;
      }
    }
  }

  /** `delete o[k]`. */
  function Remove(es: seq<Entry>, k: string): (r: seq<Entry>)
    ensures DistinctKeys(es) ==> Find(r, k) == None && DistinctKeys(r)
    ensures forall k' :: k' != k ==> Find(r, k') == Find(es, k')
    ensures forall k' :: k' in Keys(r) ==> k' in Keys(es)
  {
    if es == [] then []
    else if es[0].key == k then
      assert DistinctKeys(es) ==> k !in Keys(es[1..]);
      es[1..]
    else
      var rest := Remove(es[1..], k);
      assert ([es[0]] + rest)[1..] == rest;
      assert DistinctKeys(es) ==> DistinctKeys(es[1..]) && es[0].key !in Keys(es[1..]);
      [es[0]] + rest
  }

  // ---------------------------------------------------------------------
  // Decimal numerals, as JavaScript writes array indices and timestamps

  function Digit(d: nat): char
    requires d < 10
  {
    "0123456789"[d]
  }

  predicate IsDigit(c: char) {
    '0' <= c <= '9'
  }

  function NatToString(n: nat): (s: string)
    ensures |s| >= 1
    ensures n >= 10 <==> |s| >= 2
    ensures forall i :: 0 <= i < |s| ==> IsDigit(s[i])
  {
    if n < 10 then [Digit(n)] else NatToString(n / 10) + [Digit(n % 10)]
  }

  lemma {:induction false} NatToStringInjective(a: nat, b: nat)
    requires NatToString(a) == NatToString(b)
    ensures a == b
  {
    if a >= 10 && b >= 10 {
      var sa, sb := NatToString(a / 10), NatToString(b / 10);
      assert NatToString(a) == sa + [Digit(a % 10)];
      assert NatToString(b) == sb + [Digit(b % 10)];
      assert sa == NatToString(a)[..|NatToString(a)| - 1];
      assert sb == NatToString(b)[..|NatToString(b)| - 1];
      assert Digit(a % 10) == Digit(b % 10);
      NatToStringInjective(a / 10, b / 10);
    } else if a < 10 && b < 10 {
      assert Digit(a) == Digit(b);
    }
  }

  // ---------------------------------------------------------------------
  // The type tests and the keys a `for ... in` with `hasOwnProperty` visits

  /** `isArray`: `Object.prototype.toString` gives `[object Array]`. */
  predicate IsArray(v: Value) {
    v.Arr?
  }

  /** `isObject`: a plain object that does not carry a truthy `nodeType`. */
  predicate IsObject(v: Value) {
    v.Obj? && !Truthy(Get(v.entries, "nodeType"))
  }

  function IndexEntries(items: seq<Value>): (es: seq<Entry>)
    ensures |es| == |items|
    ensures forall i :: 0 <= i < |items| ==> es[i] == Entry(NatToString(i), items[i])
  {
    seq(|items|, i requires 0 <= i < |items| => Entry(NatToString(i), items[i]))
  }

  function Chars(s: string): (items: seq<Value>)
    ensures |items| == |s|
    ensures forall i :: 0 <= i < |s| ==> items[i] == Str([s[i]])
  {
    seq(|s|, i requires 0 <= i < |s| => Str([s[i]]))
  }

  /** The own enumerable entries of a value, in enumeration order: an object's
      entries, the indices of an array or of a string, and nothing for the
      other primitives and for host objects. */
  function OwnEntries(v: Value): seq<Entry> {
    match v
    case Obj(_, es) => es
    case Arr(_, items) => IndexEntries(items)
    case Str(s) => IndexEntries(Chars(s))
    case _ => []
  }

  lemma IndexEntriesDistinct(items: seq<Value>)
    ensures DistinctKeys(IndexEntries(items))
  {
    var es := IndexEntries(items);
    forall i, j | 0 <= i < j < |es| ensures es[i].key != es[j].key {
      if es[i].key == es[j].key {
        NatToStringInjective(i, j);
      }
    }
  }

  lemma OwnEntriesDistinct(v: Value)
    requires v.Obj? ==> DistinctKeys(v.entries)
    ensures DistinctKeys(OwnEntries(v))
  {
    match v
    case Arr(_, items) => IndexEntriesDistinct(items);
    case Str(s) => IndexEntriesDistinct(Chars(s));
    case _ =>
  }

  lemma IndexKeysAreNumerals(items: seq<Value>, k: string)
    requires k in Keys(IndexEntries(items))
    ensures forall i :: 0 <= i < |k| ==> IsDigit(k[i])
  {
    var j :| 0 <= j < |items| && Keys(IndexEntries(items))[j] == k;
    assert k == NatToString(j);
  }

  // ---------------------------------------------------------------------
  // Identities: every container id, and the containers a copy owns

  function Ids(v: Value): set<nat>
    decreases v, 1
  {
    match v
    case Arr(id, items) => {id} + ItemIds(items)
    case Obj(id, es) => {id} + EntryIds(es)
    case _ => {}
  }

  function ItemIds(items: seq<Value>): set<nat>
    decreases items, 0
  {
    if items == [] then {} else Ids(items[0]) + ItemIds(items[1..])
  }

  function EntryIds(es: seq<Entry>): set<nat>
    decreases es, 0
  {
    if es == [] then {} else Ids(es[0].val) + EntryIds(es[1..])
  }

  /** The ids of the arrays and plain objects reachable from `v` without
      passing through a value that `clone` hands back by reference. */
  function Owned(v: Value): set<nat>
    decreases v, 1
  {
    match v
    case Arr(id, items) => {id} + OwnedItems(items)
    case Obj(id, es) => if IsObject(v) then {id} + OwnedEntries(es) else {}
    case _ => {}
  }

  function OwnedItems(items: seq<Value>): set<nat>
    decreases items, 0
  {
    if items == [] then {} else Owned(items[0]) + OwnedItems(items[1..])
  }

  function OwnedEntries(es: seq<Entry>): set<nat>
    decreases es, 0
  {
    if es == [] then {} else Owned(es[0].val) + OwnedEntries(es[1..])
  }

  /** The value with every container identity forgotten: two values with the
      same erasure are structurally equal. */
  function Erase(v: Value): Value
    decreases v, 1
  {
    match v
    case Arr(_, items) => Arr(0, EraseItems(items))
    case Obj(_, es) => Obj(0, EraseEntries(es))
    case _ => v
  }

  function EraseItems(items: seq<Value>): (r: seq<Value>)
    ensures |r| == |items|
    ensures forall i :: 0 <= i < |items| ==> r[i] == Erase(items[i])
    decreases items, 0
  {
    if items == [] then [] else [Erase(items[0])] + EraseItems(items[1..])
  }

  function EraseEntries(es: seq<Entry>): (r: seq<Entry>)
    ensures |r| == |es|
    ensures forall i :: 0 <= i < |es| ==> r[i] == Entry(es[i].key, Erase(es[i].val))
    decreases es, 0
  {
    if es == [] then [] else [Entry(es[0].key, Erase(es[0].val))] + EraseEntries(es[1..])
  }

  // ---------------------------------------------------------------------
  // clone

  /** `clone(o)`: arrays and plain objects are rebuilt, each new container
      taking the next free identity before its elements are copied; every
      other value is returned as it is. The second component is the next free
      identity afterwards. */
  function Clone(v: Value, next: nat): (r: (Value, nat))
    ensures next <= r.1
    decreases v, 1
  {
    match v
    case Arr(_, items) =>
      var c := CloneItems(items, next + 1);
      (Arr(next, c.0), c.1)
    case Obj(_, es) =>
      if IsObject(v) then
        var c := CloneEntries(es, next + 1);
        (Obj(next, c.0), c.1)
      else (v, next)
    case _ => (v, next)
  }

  function CloneItems(items: seq<Value>, next: nat): (r: (seq<Value>, nat))
    ensures |r.0| == |items| && next <= r.1
    decreases items, 0
  {
    if items == [] then ([], next)
    else
      var h := Clone(items[0], next);
      var t := CloneItems(items[1..], h.1);
      ([h.0] + t.0, t.1)
  }

  function CloneEntries(es: seq<Entry>, next: nat): (r: (seq<Entry>, nat))
    ensures |r.0| == |es| && next <= r.1
    decreases es, 0
  {
    if es == [] then ([], next)
    else
      var h := Clone(es[0].val, next);
      var t := CloneEntries(es[1..], h.1);
      ([Entry(es[0].key, h.0)] + t.0, t.1)
  }

  // ---------------------------------------------------------------------
  // What clone promises

  lemma {:induction false} CloneShape(v: Value, next: nat)
    ensures Erase(Clone(v, next).0) == Erase(v)
    decreases v, 1
  {
    match v
    case Arr(_, items) => CloneItemsShape(items, next + 1);
    case Obj(_, es) => if IsObject(v) { CloneEntriesShape(es, next + 1); }
    case _ =>
  }

  lemma {:induction false} CloneItemsShape(items: seq<Value>, next: nat)
    ensures EraseItems(CloneItems(items, next).0) == EraseItems(items)
    decreases items, 0
  {
    if items != [] {
      var h := Clone(items[0], next);
      var t := CloneItems(items[1..], h.1);
      CloneShape(items[0], next);
      CloneItemsShape(items[1..], h.1);
      assert ([h.0] + t.0)[1..] == t.0;
    }
  }

  lemma {:induction false} CloneEntriesShape(es: seq<Entry>, next: nat)
    ensures EraseEntries(CloneEntries(es, next).0) == EraseEntries(es)
    decreases es, 0
  {
    if es != [] {
      var h := Clone(es[0].val, next);
      var t := CloneEntries(es[1..], h.1);
      CloneShape(es[0].val, next);
      CloneEntriesShape(es[1..], h.1);
      assert ([Entry(es[0].key, h.0)] + t.0)[1..] == t.0;
    }
  }

  lemma {:induction false} CloneFresh(v: Value, next: nat)
    ensures forall i :: i in Owned(Clone(v, next).0) ==> next <= i < Clone(v, next).1
    decreases v, 1
  {
    match v
    case Arr(_, items) => CloneItemsFresh(items, next + 1);
    case Obj(_, es) =>
      if IsObject(v) {
        CloneEntriesFresh(es, next + 1);
        var c := CloneEntries(es, next + 1);
        assert Owned(Obj(next, c.0)) <= {next} + OwnedEntries(c.0);
      }
    case _ =>
  }

  lemma {:induction false} CloneItemsFresh(items: seq<Value>, next: nat)
    ensures forall i :: i in OwnedItems(CloneItems(items, next).0) ==> next <= i < CloneItems(items, next).1
    decreases items, 0
  {
    if items != [] {
      var h := Clone(items[0], next);
      var t := CloneItems(items[1..], h.1);
      CloneFresh(items[0], next);
      CloneItemsFresh(items[1..], h.1);
      assert ([h.0] + t.0)[1..] == t.0;
    }
  }

  lemma {:induction false} CloneEntriesFresh(es: seq<Entry>, next: nat)
    ensures forall i :: i in OwnedEntries(CloneEntries(es, next).0) ==> next <= i < CloneEntries(es, next).1
    decreases es, 0
  {
    if es != [] {
      var h := Clone(es[0].val, next);
      var t := CloneEntries(es[1..], h.1);
      CloneFresh(es[0].val, next);
      CloneEntriesFresh(es[1..], h.1);
      assert ([Entry(es[0].key, h.0)] + t.0)[1..] == t.0;
    }
  }

  /** `clone(v)` is structurally equal to `v`; every array and plain object in
      it is new (its identity is at least `next`, so it is none of the
      containers of `v` when those are all below `next`); and a value that is
      neither an array nor a plain object comes back as it is. */
  lemma CloneIsDeepCopy(v: Value, next: nat)
    requires forall i :: i in Ids(v) ==> i < next
    ensures Erase(Clone(v, next).0) == Erase(v)
    ensures Owned(Clone(v, next).0) !! Ids(v)
    ensures forall i :: i in Owned(Clone(v, next).0) ==> next <= i < Clone(v, next).1
    ensures IsArray(v) || IsObject(v) ==> Clone(v, next).0.id == next
    ensures !IsArray(v) && !IsObject(v) ==> Clone(v, next) == (v, next)
  {
    CloneShape(v, next);
    CloneFresh(v, next);
  }

  /** An object that carries a truthy `nodeType`: `clone` hands it back by
      reference, together with everything it holds. */
  predicate HostLike(v: Value) {
    v.Obj? && !IsObject(v)
  }

  /** Every array and plain object held by the values of `es`, short of one
      that `clone` would share, has its identity in `[lo, hi)`. */
  ghost predicate FreshValues(es: seq<Entry>, lo: nat, hi: nat) {
    forall j, i :: 0 <= j < |es| && i in Owned(es[j].val) ==> lo <= i < hi
  }

  /** No value of `es` holds one of the containers `ids` as its own. */
  ghost predicate Apart(es: seq<Entry>, ids: set<nat>) {
    forall j :: 0 <= j < |es| ==> Owned(es[j].val) !! ids
  }

  lemma {:induction false} OwnedItemsAt(items: seq<Value>, j: nat)
    requires j < |items|
    ensures Owned(items[j]) <= OwnedItems(items)
  {
    if j > 0 {
      OwnedItemsAt(items[1..], j - 1);
    }
  }

  lemma {:induction false} OwnedEntriesAt(es: seq<Entry>, j: nat)
    requires j < |es|
    ensures Owned(es[j].val) <= OwnedEntries(es)
  {
    if j > 0 {
      OwnedEntriesAt(es[1..], j - 1);
    }
  }

  /** The own entries of `clone(v)` hold only containers the copy made,
      unless `v` is an object `clone` shares. */
  lemma CopyFresh(v: Value, next: nat)
    requires !HostLike(v)
    ensures FreshValues(OwnEntries(Clone(v, next).0), next, Clone(v, next).1)
  {
    match v
    case Arr(_, items) =>
      var c := CloneItems(items, next + 1);
      CloneItemsFresh(items, next + 1);
      forall j | 0 <= j < |c.0| ensures Owned(c.0[j]) <= OwnedItems(c.0) {
        OwnedItemsAt(c.0, j);
      }
    case Obj(_, es) =>
      var c := CloneEntries(es, next + 1);
      CloneEntriesFresh(es, next + 1);
      forall j | 0 <= j < |c.0| ensures Owned(c.0[j].val) <= OwnedEntries(c.0) {
        OwnedEntriesAt(c.0, j);
      }
    case _ =>
  }

  /** The own entries of a value that is not shared hold only containers
      the value holds. */
  lemma OwnFresh(v: Value, lo: nat, hi: nat)
    requires !HostLike(v) && forall i :: i in Owned(v) ==> lo <= i < hi
    ensures FreshValues(OwnEntries(v), lo, hi)
  {
    match v
    case Arr(_, items) =>
      forall j | 0 <= j < |items| ensures Owned(items[j]) <= Owned(v) {
        OwnedItemsAt(items, j);
      }
    case Obj(_, es) =>
      forall j | 0 <= j < |es| ensures Owned(es[j].val) <= Owned(v) {
        OwnedEntriesAt(es, j);
      }
    case Str(t) =>
      assert forall j :: 0 <= j < |t| ==> Owned(OwnEntries(v)[j].val) == {};
    case _ =>
  }

  lemma {:induction false} FreshPut(es: seq<Entry>, k: string, v: Value, lo: nat, hi: nat)
    requires FreshValues(es, lo, hi) && Owned(v) == {}
    ensures FreshValues(Put(es, k, v), lo, hi)
  {
    if es != [] && es[0].key != k {
      assert FreshValues(es[1..], lo, hi) by {
        forall j, i | 0 <= j < |es[1..]| && i in Owned(es[1..][j].val) ensures lo <= i < hi {
          assert es[1..][j] == es[j + 1];
        }
      }
      FreshPut(es[1..], k, v, lo, hi);
      var r := [es[0]] + Put(es[1..], k, v);
      forall j, i | 0 <= j < |r| && i in Owned(r[j].val) ensures lo <= i < hi {
        if j > 0 {
          assert r[j] == Put(es[1..], k, v)[j - 1];
        }
      }
    } else if es != [] {
      var r := [Entry(k, v)] + es[1..];
      forall j, i | 0 <= j < |r| && i in Owned(r[j].val) ensures lo <= i < hi {
        if j > 0 {
          assert r[j] == es[j];
        }
      }
    }
  }

  lemma {:induction false} FreshRemove(es: seq<Entry>, k: string, lo: nat, hi: nat)
    requires FreshValues(es, lo, hi)
    ensures FreshValues(Remove(es, k), lo, hi)
  {
    if es != [] {
      assert FreshValues(es[1..], lo, hi) by {
        forall j, i | 0 <= j < |es[1..]| && i in Owned(es[1..][j].val) ensures lo <= i < hi {
          assert es[1..][j] == es[j + 1];
        }
      }
      if es[0].key != k {
        FreshRemove(es[1..], k, lo, hi);
        var r := [es[0]] + Remove(es[1..], k);
        forall j, i | 0 <= j < |r| && i in Owned(r[j].val) ensures lo <= i < hi {
          if j > 0 {
            assert r[j] == Remove(es[1..], k)[j - 1];
          }
        }
      }
    }
  }

  /** The value a key reads is held at some position. */
  lemma {:induction false} FindIndex(es: seq<Entry>, k: string) returns (j: nat)
    requires k in Keys(es)
    ensures j < |es| && Find(es, k) == Some(es[j].val)
  {
    if es[0].key == k {
      j := 0;
    } else {
      assert Keys(es[1..]) == Keys(es)[1..];
      var j' := FindIndex(es[1..], k);
      j := j' + 1;
    }
  }

  /** Structurally equal values are alike in being objects `clone` shares. */
  lemma HostLikeOfShape(a: Value, b: Value)
    requires Erase(a) == Erase(b)
    ensures HostLike(a) == HostLike(b)
  {
    KindOfShape(a, b);
    if a.Obj? {
      FindErase(a.entries, b.entries, "nodeType");
      KindOfShape(Get(a.entries, "nodeType"), Get(b.entries, "nodeType"));
    }
  }

  // ---------------------------------------------------------------------
  // extend

  lemma EraseKeys(es: seq<Entry>)
    ensures Keys(EraseEntries(es)) == Keys(es)
  {
    if es != [] {
      assert EraseEntries(es)[1..] == EraseEntries(es[1..]);
      EraseKeys(es[1..]);
    }
  }

  lemma DistinctByKeys(a: seq<Entry>, b: seq<Entry>)
    requires Keys(a) == Keys(b) && DistinctKeys(a)
    ensures DistinctKeys(b)
  {
    forall i, j | 0 <= i < j < |b| ensures b[i].key != b[j].key {
      assert Keys(a)[i] == a[i].key && Keys(a)[j] == a[j].key;
    }
  }

  /** Structurally equal values have the same own keys. */
  lemma OwnKeysOfShape(a: Value, b: Value)
    requires Erase(a) == Erase(b)
    ensures Keys(OwnEntries(a)) == Keys(OwnEntries(b))
  {
    match a
    case Obj(_, es) =>
      EraseKeys(es);
      EraseKeys(b.entries);
    case Arr(_, items) =>
      assert |items| == |EraseItems(items)| == |EraseItems(b.items)| == |b.items|;
    case _ =>
  }

  lemma {:induction false} FindErase(a: seq<Entry>, b: seq<Entry>, k: string)
    requires EraseEntries(a) == EraseEntries(b)
    ensures Erase(Get(a, k)) == Erase(Get(b, k))
  {
    if a != [] {
      assert a[0].key == EraseEntries(a)[0].key == b[0].key;
      assert EraseEntries(a[1..]) == EraseEntries(a)[1..];
      assert EraseEntries(b[1..]) == EraseEntries(b)[1..];
      FindErase(a[1..], b[1..], k);
    }
  }

  lemma EraseIndexEntries(items: seq<Value>)
    ensures EraseEntries(IndexEntries(items)) == IndexEntries(EraseItems(items))
  {
  }

  /** Structurally equal values are of the same kind and equally truthy. */
  lemma KindOfShape(a: Value, b: Value)
    requires Erase(a) == Erase(b)
    ensures Truthy(a) == Truthy(b) && a.Arr? == b.Arr? && a.Obj? == b.Obj?
    ensures !a.Arr? && !a.Obj? ==> a == b
    ensures a.Obj? ==> Keys(a.entries) == Keys(b.entries)
    ensures a.Arr? ==> |a.items| == |b.items|
  {
    if a.Obj? {
      EraseKeys(a.entries);
      EraseKeys(b.entries);
    }
    if a.Arr? {
      assert |a.items| == |EraseItems(a.items)|;
    }
  }

  /** Structurally equal values have structurally equal own entries. */
  lemma OwnEntriesOfShape(a: Value, b: Value)
    requires Erase(a) == Erase(b)
    ensures EraseEntries(OwnEntries(a)) == EraseEntries(OwnEntries(b))
  {
    KindOfShape(a, b);
    if a.Arr? {
      EraseIndexEntries(a.items);
      EraseIndexEntries(b.items);
    }
  }

  /** Assignment commutes with forgetting container ids. */
  lemma {:induction false} ErasePut(es: seq<Entry>, k: string, v: Value)
    ensures EraseEntries(Put(es, k, v)) == Put(EraseEntries(es), k, Erase(v))
  {
    if es != [] {
      assert EraseEntries(es)[1..] == EraseEntries(es[1..]);
      if es[0].key != k {
        ErasePut(es[1..], k, v);
        assert EraseEntries([es[0]] + Put(es[1..], k, v)) == [EraseEntries(es)[0]] + EraseEntries(Put(es[1..], k, v));
      } else {
        assert EraseEntries([Entry(k, v)] + es[1..]) == [Entry(k, Erase(v))] + EraseEntries(es[1..]);
      }
    }
  }

  /** A property read on structurally equal values gives structurally equal
      results: reading an option through `clone(options)` finds what the
      original holds. */
  lemma ReadOfShape(a: Value, b: Value, k: string)
    requires Erase(a) == Erase(b)
    ensures Erase(Get(OwnEntries(a), k)) == Erase(Get(OwnEntries(b), k))
  {
    match a
    case Obj(_, es) => FindErase(es, b.entries, k);
    case Arr(_, items) =>
      EraseIndexEntries(items);
      EraseIndexEntries(b.items);
      FindErase(IndexEntries(items), IndexEntries(b.items), k);
    case _ =>
  }

  lemma KeysAppend(es: seq<Entry>, e: Entry)
    ensures Keys(es + [e]) == Keys(es) + [e.key]
  {
    assert forall i :: 0 <= i < |es| + 1 ==> Keys(es + [e])[i] == (Keys(es) + [e.key])[i];
  }

  /** The state of `extend`'s loop after the first `i` own entries of the copy. */
  ghost predicate MergedUpTo(merged: seq<Entry>, target: seq<Entry>, own: seq<Entry>, i: nat)
    requires i <= |own|
  {
    DistinctKeys(merged) && FindsMerged(merged, target, own[..i]) && KeepsOrder(merged, target) && KeysMerged(merged, target, own[..i])
  }

  /** Looking a key up in `merged` finds it in `own` first, then in `target`. */
  ghost predicate FindsMerged(merged: seq<Entry>, target: seq<Entry>, own: seq<Entry>) {
    forall k :: Find(merged, k) == (if k in Keys(own) then Find(own, k) else Find(target, k))
  }

  /** The keys `target` had come first in `merged`, in their order. */
  ghost predicate KeepsOrder(merged: seq<Entry>, target: seq<Entry>) {
    |target| <= |merged| && Keys(merged)[..|target|] == Keys(target)
  }

  ghost predicate KeysMerged(merged: seq<Entry>, target: seq<Entry>, own: seq<Entry>) {
    forall k :: k in Keys(merged) <==> k in Keys(target) || k in Keys(own)
  }

  lemma MergeStepFind(merged: seq<Entry>, target: seq<Entry>, own: seq<Entry>, i: nat)
    requires i < |own| && DistinctKeys(own)
    requires FindsMerged(merged, target, own[..i])
    ensures FindsMerged(Put(merged, own[i].key, own[i].val), target, own[..i + 1])
  {
    var e, pre, post := own[i], own[..i], own[..i + 1];
    var m := Put(merged, e.key, e.val);
    assert post == pre + [e];
    KeysAppend(pre, e);
    assert e.key !in Keys(pre) by {
      forall j | 0 <= j < i ensures Keys(pre)[j] != e.key {
        assert own[j].key != own[i].key;
      }
    }
    forall k ensures Find(m, k) == (if k in Keys(post) then Find(post, k) else Find(target, k)) {
      FindAppend(pre, e, k);
    }
  }

  lemma MergeStepPrefix(merged: seq<Entry>, target: seq<Entry>, own: seq<Entry>, i: nat)
    requires i < |own|
    requires KeepsOrder(merged, target)
    ensures KeepsOrder(Put(merged, own[i].key, own[i].val), target)
  {
    var e := own[i];
    var m := Put(merged, e.key, e.val);
    if e.key !in Keys(merged) {
      assert Keys(m)[..|target|] == (Keys(merged) + [e.key])[..|target|];
    }
  }

  lemma MergeStepKeys(merged: seq<Entry>, target: seq<Entry>, own: seq<Entry>, i: nat)
    requires i < |own|
    requires KeysMerged(merged, target, own[..i])
    ensures KeysMerged(Put(merged, own[i].key, own[i].val), target, own[..i + 1])
  {
    var e := own[i];
    var m := Put(merged, e.key, e.val);
    assert own[..i + 1] == own[..i] + [e];
    KeysAppend(own[..i], e);
    forall k ensures k in Keys(m) <==> k in Keys(target) || k in Keys(own[..i + 1]) {
      assert k in Keys(own[..i + 1]) <==> k in Keys(own[..i]) || k == e.key;
      if e.key in Keys(merged) {
        assert Keys(m) == Keys(merged);
      } else {
        assert Keys(m) == Keys(merged) + [e.key];
      }
    }
  }

  lemma MergeStep(merged: seq<Entry>, target: seq<Entry>, own: seq<Entry>, i: nat)
    requires i < |own| && DistinctKeys(own)
    requires MergedUpTo(merged, target, own, i)
    ensures MergedUpTo(Put(merged, own[i].key, own[i].val), target, own, i + 1)
  {
    PutDistinct(merged, own[i].key, own[i].val);
    MergeStepFind(merged, target, own, i);
    MergeStepPrefix(merged, target, own, i);
    MergeStepKeys(merged, target, own, i);
  }

  /** `extend(target, source)`: the own entries of `clone(source)` are
      assigned onto `target` one after the other. The source's keys take
      the copied values, every other key of `target` keeps its value, the
      keys `target` already had keep their places, and no other key appears. */
  method Extend(target: seq<Entry>, source: Value, next: nat) returns (merged: seq<Entry>, next': nat)
    requires DistinctKeys(target)
    requires source.Obj? ==> DistinctKeys(source.entries)
    ensures next' == Clone(source, next).1
    ensures DistinctKeys(merged)
    ensures forall k :: (Find(merged, k) == if k in Keys(OwnEntries(Clone(source, next).0))
      then Find(OwnEntries(Clone(source, next).0), k) else Find(target, k))
    ensures |target| <= |merged| && Keys(merged)[..|target|] == Keys(target)
    ensures forall k :: k in Keys(merged) <==> k in Keys(target) || k in Keys(OwnEntries(source))
    ensures OwnEntries(source) == [] ==> merged == target
  {
    var copy: Value;
    copy, next' := Clone(source, next).0, Clone(source, next).1;
    CloneShape(source, next);
    OwnKeysOfShape(source, copy);
    OwnEntriesDistinct(source);
    var own := OwnEntries(copy);
    DistinctByKeys(OwnEntries(source), own);
    assert |own| == |OwnEntries(source)|;
    merged := target;
    var i := 0;
    assert own[..0] == [];
    while i < |own|
      invariant 0 <= i <= |own|
      invariant MergedUpTo(merged, target, own, i)
      invariant own == [] ==> merged == target
    {
      MergeStep(merged, target, own, i);
      merged := Put(merged, own[i].key, own[i].val);
      i := i + 1;
    }
    assert own[..i] == own;
  }
}
