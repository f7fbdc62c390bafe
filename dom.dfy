/** The part of the browser's DOM that the relay uses: a document as the
    ordered child list of every element and the parent of every attached
    node, with `appendChild`, `insertBefore` and `removeChild`. Moving a node
    that already has a parent first takes it out of that parent, as the DOM
    does. */
module Dom {
  import opened Values

  type NodeId = nat

  datatype Document = Document(kids: map<NodeId, seq<NodeId>>, parent: map<NodeId, NodeId>)

  /** `p.childNodes`. */
  function Kids(d: Document, p: NodeId): seq<NodeId> {
    if p in d.kids then d.kids[p] else []
  }

  /** `n.parentNode`. */
  function ParentOf(d: Document, n: NodeId): Option<NodeId> {
    if n in d.parent then Some(d.parent[n]) else None
  }

  /** The parent links and the child lists describe the same parent/child
      relation, and no child list holds a node twice. Cycles are not excluded. */
  ghost predicate Valid(d: Document) {
    && (forall n: NodeId :: ParentOf(d, n).Some? ==> n in Kids(d, ParentOf(d, n).value))
    && (forall p: NodeId, i :: 0 <= i < |Kids(d, p)| ==> ParentOf(d, Kids(d, p)[i]) == Some(p))
    && (forall p: NodeId, i :: 0 <= i < |Kids(d, p)| ==> IndexOf(Kids(d, p), Kids(d, p)[i]) == i)
  }

  /** Every node the document knows is below `next`; `next` and above are free. */
  predicate Below(d: Document, next: nat) {
    && (forall n :: n in d.parent ==> n < next)
    && (forall p :: p in d.kids ==> p < next)
  }

  /** The position of the first occurrence of `n`. */
  function IndexOf(s: seq<NodeId>, n: NodeId): (i: nat)
    requires n in s
    ensures i < |s| && s[i] == n
  {
    if s[0] == n then 0 else 1 + IndexOf(s[1..], n)
  }

  /** No occurrence of `n` precedes the one `IndexOf` finds. */
  lemma {:induction false} IndexOfFirst(s: seq<NodeId>, n: NodeId)
    requires n in s
    ensures n !in s[..IndexOf(s, n)]
  {
    if s[0] != n {
      IndexOfFirst(s[1..], n);
      assert s[1..][..IndexOf(s[1..], n)] == s[..IndexOf(s[1..], n) + 1][1..];
    }
  }

  function RemoveAt(s: seq<NodeId>, i: nat): (r: seq<NodeId>)
    requires i < |s|
    ensures |r| == |s| - 1
  {
    s[..i] + s[i + 1..]
  }

  /** Takes `n` out of its parent's child list, if it has a parent. */
  function Detach(d: Document, n: NodeId): Document {
    if n in d.parent && n in Kids(d, d.parent[n]) then
      var p := d.parent[n];
      Document(d.kids[p := RemoveAt(Kids(d, p), IndexOf(Kids(d, p), n))], d.parent - {n})
    else Document(d.kids, d.parent - {n})
  }

  /** `p.appendChild(n)`. */
  function AppendChild(d: Document, p: NodeId, n: NodeId): Document {
    var e := Detach(d, n);
    Document(e.kids[p := Kids(e, p) + [n]], e.parent[n := p])
  }

  /** `p.insertBefore(n, ref)`; the DOM throws unless `ref` is a child of `p`. */
  function InsertBefore(d: Document, p: NodeId, n: NodeId, ref: NodeId): Document
    requires ref in Kids(Detach(d, n), p)
  {
    var e := Detach(d, n);
    var s := Kids(e, p);
    var i := IndexOf(s, ref);
    Document(e.kids[p := s[..i] + [n] + s[i..]], e.parent[n := p])
  }

  /** `p.removeChild(n)`; the DOM throws unless `n` is a child of `p`. */
  function RemoveChild(d: Document, p: NodeId, n: NodeId): Document
    requires n in Kids(d, p)
  {
    var s := Kids(d, p);
    Document(d.kids[p := RemoveAt(s, IndexOf(s, n))], d.parent - {n})
  }

  /** A node the document has never seen: no parent and no children. */
  predicate Unused(d: Document, n: NodeId) {
    n !in d.parent && Kids(d, n) == []
  }

  lemma BelowUnused(d: Document, next: nat, n: NodeId)
    requires Below(d, next) && next <= n
    ensures Unused(d, n)
  {
  }

  lemma RemoveAtAt(s: seq<NodeId>, i: nat, k: nat)
    requires i < |s| && k < |s| - 1
    ensures RemoveAt(s, i)[k] == if k < i then s[k] else s[k + 1]
  {
  }

  lemma AppendUnusedEffect(d: Document, p: NodeId, n: NodeId)
    requires Unused(d, n)
    ensures forall q: NodeId :: Kids(AppendChild(d, p, n), q) == if q == p then Kids(d, p) + [n] else Kids(d, q)
    ensures forall m: NodeId :: ParentOf(AppendChild(d, p, n), m) == if m == n then Some(p) else ParentOf(d, m)
  {
    assert Detach(d, n).kids == d.kids;
    assert Detach(d, n).parent == d.parent;
  }

  lemma AppendValidFrom(d: Document, r: Document, p: NodeId, n: NodeId)
    requires Valid(d) && Unused(d, n) && p != n
    requires forall q: NodeId :: Kids(r, q) == if q == p then Kids(d, p) + [n] else Kids(d, q)
    requires forall m: NodeId :: ParentOf(r, m) == if m == n then Some(p) else ParentOf(d, m)
    ensures Valid(r)
  {
    forall m: NodeId | ParentOf(r, m).Some? ensures m in Kids(r, ParentOf(r, m).value) {
      if m != n {
        assert Kids(r, ParentOf(d, m).value) == Kids(d, ParentOf(d, m).value) || Kids(r, ParentOf(d, m).value) == Kids(d, p) + [n];
      }
    }
    forall q: NodeId, i | 0 <= i < |Kids(r, q)| ensures ParentOf(r, Kids(r, q)[i]) == Some(q) {
      if q == p && i == |Kids(d, p)| {
      } else {
        assert Kids(r, q)[i] == Kids(d, q)[i];
        assert Kids(d, q)[i] != n;
      }
    }
    AppendKeepsOnce(d, r, p, n);
  }

  lemma AppendKeepsOnce(d: Document, r: Document, p: NodeId, n: NodeId)
    requires Valid(d) && Unused(d, n)
    requires forall q: NodeId :: Kids(r, q) == if q == p then Kids(d, p) + [n] else Kids(d, q)
    ensures forall q: NodeId, i :: 0 <= i < |Kids(r, q)| ==> IndexOf(Kids(r, q), Kids(r, q)[i]) == i
  {
    var s := Kids(d, p);
    forall k | 0 <= k < |s| ensures s[k] != n {
      assert ParentOf(d, s[k]) == Some(p);
    }
    FirstsSnoc(s, n);
    forall q: NodeId, i | 0 <= i < |Kids(r, q)| ensures IndexOf(Kids(r, q), Kids(r, q)[i]) == i {
      if q != p {
        assert Kids(r, q) == Kids(d, q);
      }
    }
  }

  /** Appending a node not yet in a list whose nodes occur once keeps every
      node at its first occurrence. */
  lemma FirstsSnoc(s: seq<NodeId>, n: NodeId)
    requires n !in s && forall i :: 0 <= i < |s| ==> IndexOf(s, s[i]) == i
    ensures forall i :: 0 <= i < |s + [n]| ==> IndexOf(s + [n], (s + [n])[i]) == i
  {
    var t := s + [n];
    forall i | 0 <= i < |t| ensures IndexOf(t, t[i]) == i {
      forall j | 0 <= j < i ensures t[..i][j] != t[i] {
        if i < |s| {
          assert IndexOf(s, s[j]) == j && IndexOf(s, s[i]) == i;
        } else {
          assert t[j] == s[j];
        }
      }
      IndexOfUnique(t, t[i], i);
    }
  }

  /** Appending a node the document has never seen keeps it well formed. */
  lemma AppendUnusedValid(d: Document, p: NodeId, n: NodeId)
    requires Valid(d) && Unused(d, n) && p != n
    ensures Valid(AppendChild(d, p, n))
    ensures forall q: NodeId :: Kids(AppendChild(d, p, n), q) == if q == p then Kids(d, p) + [n] else Kids(d, q)
    ensures forall m: NodeId :: ParentOf(AppendChild(d, p, n), m) == if m == n then Some(p) else ParentOf(d, m)
  {
    AppendUnusedEffect(d, p, n);
    AppendValidFrom(d, AppendChild(d, p, n), p, n);
  }

  lemma RemoveChildEffect(d: Document, p: NodeId, n: NodeId)
    requires n in Kids(d, p)
    ensures forall q: NodeId :: Kids(RemoveChild(d, p, n), q) == if q == p then RemoveAt(Kids(d, p), IndexOf(Kids(d, p), n)) else Kids(d, q)
    ensures forall m: NodeId :: ParentOf(RemoveChild(d, p, n), m) == if m == n then None else ParentOf(d, m)
  {
  }

  lemma RemoveValidFrom(d: Document, r: Document, p: NodeId, n: NodeId)
    requires Valid(d) && n in Kids(d, p)
    requires forall q: NodeId :: Kids(r, q) == if q == p then RemoveAt(Kids(d, p), IndexOf(Kids(d, p), n)) else Kids(d, q)
    requires forall m: NodeId :: ParentOf(r, m) == if m == n then None else ParentOf(d, m)
    ensures Valid(r)
  {
    RemoveKeepsListed(d, r, p, n);
    RemoveKeepsParented(d, r, p, n);
    RemoveKeepsOnce(d, r, p, n);
  }

  lemma RemoveKeepsListed(d: Document, r: Document, p: NodeId, n: NodeId)
    requires Valid(d) && n in Kids(d, p)
    requires forall q: NodeId :: Kids(r, q) == if q == p then RemoveAt(Kids(d, p), IndexOf(Kids(d, p), n)) else Kids(d, q)
    requires forall m: NodeId :: ParentOf(r, m) == if m == n then None else ParentOf(d, m)
    ensures forall m: NodeId :: ParentOf(r, m).Some? ==> m in Kids(r, ParentOf(r, m).value)
  {
    var s := Kids(d, p);
    var x := IndexOf(s, n);
    forall m: NodeId | ParentOf(r, m).Some? ensures m in Kids(r, ParentOf(r, m).value) {
      var q := ParentOf(d, m).value;
      if q == p {
        var y := IndexOf(s, m);
        assert IndexOf(s, s[x]) == x && IndexOf(s, s[y]) == y;
        assert y != x;
        if y < x {
          assert RemoveAt(s, x)[y] == m;
        } else {
          assert RemoveAt(s, x)[y - 1] == m;
        }
      }
    }
  }

  lemma RemoveKeepsParented(d: Document, r: Document, p: NodeId, n: NodeId)
    requires Valid(d) && n in Kids(d, p)
    requires forall q: NodeId :: Kids(r, q) == if q == p then RemoveAt(Kids(d, p), IndexOf(Kids(d, p), n)) else Kids(d, q)
    requires forall m: NodeId :: ParentOf(r, m) == if m == n then None else ParentOf(d, m)
    ensures forall q: NodeId, i :: 0 <= i < |Kids(r, q)| ==> ParentOf(r, Kids(r, q)[i]) == Some(q)
  {
    var s := Kids(d, p);
    var x := IndexOf(s, n);
    assert ParentOf(d, n) == Some(p) by {
      assert s[x] == n;
    }
    forall q: NodeId, i | 0 <= i < |Kids(r, q)| ensures ParentOf(r, Kids(r, q)[i]) == Some(q) {
      if q == p {
        RemoveAtAt(s, x, i);
        var k := if i < x then i else i + 1;
        assert Kids(r, q)[i] == s[k] && k != x;
        assert IndexOf(s, s[k]) == k;
      } else {
        assert Kids(r, q)[i] == Kids(d, q)[i];
      }
    }
  }

  lemma RemoveKeepsOnce(d: Document, r: Document, p: NodeId, n: NodeId)
    requires Valid(d) && n in Kids(d, p)
    requires forall q: NodeId :: Kids(r, q) == if q == p then RemoveAt(Kids(d, p), IndexOf(Kids(d, p), n)) else Kids(d, q)
    ensures forall q: NodeId, i :: 0 <= i < |Kids(r, q)| ==> IndexOf(Kids(r, q), Kids(r, q)[i]) == i
  {
    var s := Kids(d, p);
    RemoveAtFirsts(s, IndexOf(s, n));
    forall q: NodeId, i | 0 <= i < |Kids(r, q)| ensures IndexOf(Kids(r, q), Kids(r, q)[i]) == i {
      if q != p {
        assert Kids(r, q) == Kids(d, q);
      }
    }
  }

  /** Removing one position from a list whose nodes occur once keeps every
      node at its first occurrence. */
  lemma RemoveAtFirsts(s: seq<NodeId>, x: nat)
    requires x < |s| && forall i :: 0 <= i < |s| ==> IndexOf(s, s[i]) == i
    ensures forall i :: 0 <= i < |RemoveAt(s, x)| ==> IndexOf(RemoveAt(s, x), RemoveAt(s, x)[i]) == i
  {
    var r := RemoveAt(s, x);
    forall i | 0 <= i < |r| ensures IndexOf(r, r[i]) == i {
      RemoveAtAt(s, x, i);
      var ki := if i < x then i else i + 1;
      forall j | 0 <= j < i ensures r[..i][j] != r[i] {
        RemoveAtAt(s, x, j);
        var kj := if j < x then j else j + 1;
        assert IndexOf(s, s[kj]) == kj && IndexOf(s, s[ki]) == ki;
      }
      IndexOfUnique(r, r[i], i);
    }
  }

  /** Removing a child keeps the document well formed. */
  lemma RemoveChildValid(d: Document, p: NodeId, n: NodeId)
    requires Valid(d) && n in Kids(d, p)
    ensures Valid(RemoveChild(d, p, n))
    ensures forall q: NodeId :: Kids(RemoveChild(d, p, n), q) == if q == p then RemoveAt(Kids(d, p), IndexOf(Kids(d, p), n)) else Kids(d, q)
    ensures forall m: NodeId :: ParentOf(RemoveChild(d, p, n), m) == if m == n then None else ParentOf(d, m)
  {
    RemoveChildEffect(d, p, n);
    RemoveValidFrom(d, RemoveChild(d, p, n), p, n);
  }

  /** The operations on known nodes name no node above the document's bound. */
  lemma AppendBelow(d: Document, p: NodeId, n: NodeId, next: nat)
    requires Below(d, next) && p < next && n < next
    ensures Below(AppendChild(d, p, n), next)
  {
    assert Below(Detach(d, n), next);
  }

  lemma InsertBelow(d: Document, p: NodeId, n: NodeId, ref: NodeId, next: nat)
    requires Below(d, next) && p < next && n < next && ref in Kids(Detach(d, n), p)
    ensures Below(InsertBefore(d, p, n, ref), next)
  {
    assert Below(Detach(d, n), next);
  }

  lemma RemoveBelow(d: Document, p: NodeId, n: NodeId, next: nat)
    requires Below(d, next) && n in Kids(d, p)
    ensures Below(RemoveChild(d, p, n), next)
  {
  }

  // Proof helpers: DetachEffect, AppendEffect and InsertEffect unfold the
  // definitions above, child list by child list and node by node. The effects
  // in terms of the old lists are AppendMovedEffect, InsertMovedEffect,
  // InsertDetachedEffect and RemoveAtEffect below.

  lemma DetachEffect(d: Document, n: NodeId)
    ensures forall m: NodeId :: ParentOf(Detach(d, n), m) == if m == n then None else ParentOf(d, m)
    ensures ParentOf(d, n).Some? && n in Kids(d, ParentOf(d, n).value) ==>
      forall q: NodeId :: (Kids(Detach(d, n), q) ==
        if q == ParentOf(d, n).value then RemoveAt(Kids(d, q), IndexOf(Kids(d, q), n)) else Kids(d, q))
    ensures ParentOf(d, n) == None ==> forall q: NodeId :: Kids(Detach(d, n), q) == Kids(d, q)
  {
  }

  lemma AppendEffect(d: Document, p: NodeId, n: NodeId)
    ensures forall q: NodeId :: (Kids(AppendChild(d, p, n), q) ==
      if q == p then Kids(Detach(d, n), p) + [n] else Kids(Detach(d, n), q))
    ensures forall m: NodeId :: ParentOf(AppendChild(d, p, n), m) == if m == n then Some(p) else ParentOf(Detach(d, n), m)
  {
  }

  lemma InsertEffect(d: Document, p: NodeId, n: NodeId, ref: NodeId)
    requires ref in Kids(Detach(d, n), p)
    ensures forall q: NodeId :: (Kids(InsertBefore(d, p, n, ref), q) ==
      if q == p then
        Kids(Detach(d, n), p)[..IndexOf(Kids(Detach(d, n), p), ref)] + [n] + Kids(Detach(d, n), p)[IndexOf(Kids(Detach(d, n), p), ref)..]
      else Kids(Detach(d, n), q))
    ensures forall m: NodeId :: ParentOf(InsertBefore(d, p, n, ref), m) == if m == n then Some(p) else ParentOf(Detach(d, n), m)
  {
  }

  /** The first occurrence is the only one that precedes no other. */
  lemma IndexOfUnique(s: seq<NodeId>, n: NodeId, i: nat)
    requires i < |s| && s[i] == n && n !in s[..i]
    ensures IndexOf(s, n) == i
  {
    IndexOfFirst(s, n);
  }

  /** Inserting `c` before position `i` and then removing the node that was
      at `i` is writing `c` over position `i`. */
  lemma InsertThenRemove(s: seq<NodeId>, i: nat, c: NodeId)
    requires i < |s|
    ensures |s[..i] + [c] + s[i..]| == |s| + 1
    ensures RemoveAt(s[..i] + [c] + s[i..], i + 1) == s[i := c]
  {
    var t := s[..i] + [c] + s[i..];
    assert t[..i + 1] == s[..i] + [c];
    assert t[i + 2..] == s[i + 1..];
  }

  /** Inserting a detached node before the child at position `idx` of `p`. */
  lemma InsertDetachedEffect(d: Document, p: NodeId, n: NodeId, ref: NodeId, idx: nat)
    requires ParentOf(d, n) == None
    requires idx < |Kids(d, p)| && Kids(d, p)[idx] == ref && ref !in Kids(d, p)[..idx]
    ensures ref in Kids(Detach(d, n), p)
    ensures forall q: NodeId :: (Kids(InsertBefore(d, p, n, ref), q) ==
      if q == p then Kids(d, p)[..idx] + [n] + Kids(d, p)[idx..] else Kids(d, q))
    ensures forall m: NodeId :: ParentOf(InsertBefore(d, p, n, ref), m) == if m == n then Some(p) else ParentOf(d, m)
  {
    DetachEffect(d, n);
    IndexOfUnique(Kids(d, p), ref, idx);
    InsertEffect(d, p, n, ref);
  }

  /** Appending to `p` a node that is the child at position `idx` of another parent `src`. */
  lemma AppendMovedEffect(d: Document, p: NodeId, n: NodeId, src: NodeId, idx: nat)
    requires ParentOf(d, n) == Some(src) && src != p
    requires idx < |Kids(d, src)| && Kids(d, src)[idx] == n && n !in Kids(d, src)[..idx]
    ensures forall q: NodeId :: (Kids(AppendChild(d, p, n), q) ==
      if q == src then RemoveAt(Kids(d, src), idx) else if q == p then Kids(d, p) + [n] else Kids(d, q))
    ensures forall m: NodeId :: ParentOf(AppendChild(d, p, n), m) == if m == n then Some(p) else ParentOf(d, m)
  {
    IndexOfUnique(Kids(d, src), n, idx);
    DetachEffect(d, n);
    AppendEffect(d, p, n);
  }

  /** Removing the child at position `idx` of `p`. */
  lemma RemoveAtEffect(d: Document, p: NodeId, n: NodeId, idx: nat)
    requires idx < |Kids(d, p)| && Kids(d, p)[idx] == n && n !in Kids(d, p)[..idx]
    ensures n in Kids(d, p)
    ensures forall q: NodeId :: Kids(RemoveChild(d, p, n), q) == if q == p then RemoveAt(Kids(d, p), idx) else Kids(d, q)
    ensures forall m: NodeId :: ParentOf(RemoveChild(d, p, n), m) == if m == n then None else ParentOf(d, m)
  {
    IndexOfUnique(Kids(d, p), n, idx);
    RemoveChildEffect(d, p, n);
  }

  /** Inserting into `p` a node that is the child at position `j` of another
      parent `src`, before the child at position `idx` of `p`. */
  lemma InsertMovedEffect(d: Document, p: NodeId, n: NodeId, ref: NodeId, src: NodeId, j: nat, idx: nat)
    requires ParentOf(d, n) == Some(src) && src != p && n != ref
    requires j < |Kids(d, src)| && Kids(d, src)[j] == n && n !in Kids(d, src)[..j]
    requires idx < |Kids(d, p)| && Kids(d, p)[idx] == ref && ref !in Kids(d, p)[..idx]
    ensures ref in Kids(Detach(d, n), p)
    ensures forall q: NodeId :: (Kids(InsertBefore(d, p, n, ref), q) ==
      if q == src then RemoveAt(Kids(d, src), j)
      else if q == p then Kids(d, p)[..idx] + [n] + Kids(d, p)[idx..]
      else Kids(d, q))
    ensures forall m: NodeId :: ParentOf(InsertBefore(d, p, n, ref), m) == if m == n then Some(p) else ParentOf(d, m)
  {
    IndexOfUnique(Kids(d, src), n, j);
    IndexOfUnique(Kids(d, p), ref, idx);
    DetachEffect(d, n);
    InsertEffect(d, p, n, ref);
  }

  /** `p.insertBefore(n, ref)` and then `p.removeChild(ref)`: `n` moves from
      `src` into the place `ref` held. */
  lemma ReplaceEffect(d: Document, p: NodeId, n: NodeId, ref: NodeId, src: NodeId, j: nat, idx: nat)
    requires ParentOf(d, n) == Some(src) && src != p && n != ref
    requires j < |Kids(d, src)| && Kids(d, src)[j] == n && n !in Kids(d, src)[..j]
    requires idx < |Kids(d, p)| && Kids(d, p)[idx] == ref && ref !in Kids(d, p)[..idx]
    ensures ref in Kids(Detach(d, n), p)
    ensures ref in Kids(InsertBefore(d, p, n, ref), p)
    ensures forall q: NodeId :: (Kids(RemoveChild(InsertBefore(d, p, n, ref), p, ref), q) ==
      if q == src then RemoveAt(Kids(d, src), j)
      else if q == p then Kids(d, p)[idx := n]
      else Kids(d, q))
    ensures forall m: NodeId :: (ParentOf(RemoveChild(InsertBefore(d, p, n, ref), p, ref), m) ==
      if m == n then Some(p) else if m == ref then None else ParentOf(d, m))
  {
    InsertMovedEffect(d, p, n, ref, src, j, idx);
    var s := Kids(d, p);
    var d1 := InsertBefore(d, p, n, ref);
    var t := s[..idx] + [n] + s[idx..];
    assert t[..idx + 1] == s[..idx] + [n];
    assert Kids(d1, p) == t;
    RemoveAtEffect(d1, p, ref, idx + 1);
    InsertThenRemove(s, idx, n);
  }
}
