/** Moving file inputs into the posting form and putting them back.
    While a transfer is in flight, every file input sits in the form and a
    disabled clone holds its place in its original parent. `Agrees` states
    that situation in closed form against the document before the move;
    `RelocateOne` and `RestoreOne` are one turn of the loop in `send` and of
    the loop in `clean`. */
module Relocation {
  import opened Values
  import opened Dom

  /** No node occurs twice: each one's first occurrence is its own position. */
  predicate Distinct(s: seq<NodeId>) {
    forall i, j :: 0 <= i < j < |s| ==> s[i] != s[j]
  }

  /** `x` with each node of `from` replaced by the node at the same position in `to`. */
  function Swap(x: NodeId, from: seq<NodeId>, to: seq<NodeId>): (y: NodeId)
    requires |from| == |to|
    ensures x !in from ==> y == x
    ensures x in from ==> y in to
  {
    if x in from then to[IndexOf(from, x)] else x
  }

  function Subst(s: seq<NodeId>, from: seq<NodeId>, to: seq<NodeId>): (r: seq<NodeId>)
    requires |from| == |to|
    ensures |r| == |s|
    ensures forall k {:trigger r[k]} :: 0 <= k < |s| ==> r[k] == Swap(s[k], from, to)
  {
    seq(|s|, k requires 0 <= k < |s| => Swap(s[k], from, to))
  }

  /** What the loop in `send` needs of the document it starts from: the file
      inputs are distinct, attached and outside the form; the clones are
      distinct nodes the document has never seen. */
  ghost predicate Relocatable(base: Document, form: NodeId, files: seq<NodeId>, clones: seq<NodeId>) {
    && |files| == |clones|
    && FilesReady(base, form, files)
    && Distinct(clones)
    && (forall c :: c in clones ==> c != form && c !in files && Unused(base, c))
  }

  /** The part of `Relocatable` that speaks of the file inputs alone. */
  ghost predicate FilesReady(base: Document, form: NodeId, files: seq<NodeId>) {
    && Valid(base)
    && Distinct(files)
    && (forall f :: f in files ==> f != form && ParentOf(base, f).Some? && ParentOf(base, f).value != form)
  }

  /** `d` is `base` with `files` moved, in order, to the end of `form`, and each
      clone standing where its file stood. */
  ghost predicate Agrees(d: Document, base: Document, form: NodeId, files: seq<NodeId>, clones: seq<NodeId>)
    requires |files| == |clones|
  {
    KidsAgree(d, base, form, files, clones) && ParentsAgree(d, base, form, files, clones)
  }

  ghost predicate KidsAgree(d: Document, base: Document, form: NodeId, files: seq<NodeId>, clones: seq<NodeId>)
    requires |files| == |clones|
  {
    forall p: NodeId {:trigger Kids(d, p)} :: (Kids(d, p) ==
      if p == form then Kids(base, form) + files else Subst(Kids(base, p), files, clones))
  }

  ghost predicate ParentsAgree(d: Document, base: Document, form: NodeId, files: seq<NodeId>, clones: seq<NodeId>)
    requires |files| == |clones|
  {
    forall m: NodeId {:trigger ParentOf(d, m)} :: (ParentOf(d, m) ==
      if m in files then Some(form)
      else if m in clones then ParentOf(base, files[IndexOf(clones, m)])
      else ParentOf(base, m))
  }

  /** With nothing moved, `Agrees` is equality of child lists and parents. */
  lemma AgreesEmpty(d: Document, base: Document, form: NodeId)
    ensures Agrees(d, base, form, [], []) <==>
      ((forall p: NodeId :: Kids(d, p) == Kids(base, p)) && (forall m: NodeId :: ParentOf(d, m) == ParentOf(base, m)))
  {
    if (forall p: NodeId :: Kids(d, p) == Kids(base, p)) {
      forall p: NodeId ensures Kids(d, p) == Subst(Kids(base, p), [], []) {
        assert Subst(Kids(base, p), [], []) == Kids(base, p);
      }
    }
    if Agrees(d, base, form, [], []) {
      forall p: NodeId ensures Kids(d, p) == Kids(base, p) {
        assert Subst(Kids(base, p), [], []) == Kids(base, p);
        if p == form {
          assert Kids(base, form) + [] == Kids(base, form);
        }
      }
    }
  }

  lemma RelocatablePrefix(base: Document, form: NodeId, files: seq<NodeId>, clones: seq<NodeId>, i: nat)
    requires Relocatable(base, form, files, clones) && i <= |files|
    ensures Relocatable(base, form, files[..i], clones[..i])
  {
    forall f | f in files[..i] ensures f in files {
      var k :| 0 <= k < i && files[k] == f;
    }
    forall c | c in clones[..i] ensures c in clones && c !in files[..i] {
      var k :| 0 <= k < i && clones[k] == c;
    }
  }

  lemma RelocatableSuffix(base: Document, form: NodeId, files: seq<NodeId>, clones: seq<NodeId>)
    requires Relocatable(base, form, files, clones) && |files| > 0
    ensures Relocatable(base, form, files[1..], clones[1..])
  {
    forall f | f in files[1..] ensures f in files {
      var k :| 0 <= k < |files| - 1 && files[1..][k] == f;
      assert files[k + 1] == f;
    }
    forall c | c in clones[1..] ensures c in clones && c !in files[1..] {
      var k :| 0 <= k < |clones| - 1 && clones[1..][k] == c;
      assert clones[k + 1] == c;
    }
  }

  // Positions in sequences that grow at one end

  lemma IndexOfSnoc(s: seq<NodeId>, x: NodeId, y: NodeId)
    requires x in s
    ensures IndexOf(s + [y], x) == IndexOf(s, x)
  {
    var i := IndexOf(s, x);
    IndexOfFirst(s, x);
    assert (s + [y])[..i] == s[..i];
    IndexOfUnique(s + [y], x, i);
  }

  lemma IndexOfLast(s: seq<NodeId>, y: NodeId)
    requires y !in s
    ensures IndexOf(s + [y], y) == |s|
  {
    assert (s + [y])[..|s|] == s;
    IndexOfUnique(s + [y], y, |s|);
  }

  lemma IndexOfCons(x: NodeId, s: seq<NodeId>, y: NodeId)
    requires y in s && y != x
    ensures IndexOf([x] + s, y) == 1 + IndexOf(s, y)
  {
    assert ([x] + s)[1..] == s;
  }

  lemma SwapSnoc(x: NodeId, F: seq<NodeId>, C: seq<NodeId>, f: NodeId, c: NodeId)
    requires |F| == |C| && f !in F
    ensures Swap(x, F + [f], C + [c]) == if x == f then c else Swap(x, F, C)
  {
    if x == f {
      IndexOfLast(F, f);
    } else if x in F {
      IndexOfSnoc(F, x, f);
    }
  }

  lemma SwapCons(x: NodeId, f: NodeId, F: seq<NodeId>, c: NodeId, C: seq<NodeId>)
    requires |F| == |C|
    ensures Swap(x, [f] + F, [c] + C) == if x == f then c else Swap(x, F, C)
  {
    if x != f && x in F {
      IndexOfCons(f, F, x);
    }
  }

  lemma SubstSnocOff(b: seq<NodeId>, F: seq<NodeId>, C: seq<NodeId>, f: NodeId, c: NodeId)
    requires |F| == |C| && f !in F && f !in b
    ensures Subst(b, F + [f], C + [c]) == Subst(b, F, C)
  {
    forall k | 0 <= k < |b| ensures Subst(b, F + [f], C + [c])[k] == Subst(b, F, C)[k] {
      SwapSnoc(b[k], F, C, f, c);
    }
  }

  lemma SubstSnocAt(b: seq<NodeId>, F: seq<NodeId>, C: seq<NodeId>, f: NodeId, c: NodeId, idx: nat)
    requires |F| == |C| && f !in F && idx < |b| && b[idx] == f
    requires forall k :: 0 <= k < |b| && k != idx ==> b[k] != f
    ensures Subst(b, F + [f], C + [c]) == Subst(b, F, C)[idx := c]
  {
    forall k | 0 <= k < |b| ensures Subst(b, F + [f], C + [c])[k] == Subst(b, F, C)[idx := c][k] {
      SwapSnoc(b[k], F, C, f, c);
    }
  }

  lemma SubstConsOff(b: seq<NodeId>, f: NodeId, F: seq<NodeId>, c: NodeId, C: seq<NodeId>)
    requires |F| == |C| && f !in b
    ensures Subst(b, [f] + F, [c] + C) == Subst(b, F, C)
  {
    forall k | 0 <= k < |b| ensures Subst(b, [f] + F, [c] + C)[k] == Subst(b, F, C)[k] {
      SwapCons(b[k], f, F, c, C);
    }
  }

  lemma SubstConsAt(b: seq<NodeId>, f: NodeId, F: seq<NodeId>, c: NodeId, C: seq<NodeId>, idx: nat)
    requires |F| == |C| && f !in F && idx < |b| && b[idx] == f
    requires forall k :: 0 <= k < |b| && k != idx ==> b[k] != f
    ensures Subst(b, F, C) == Subst(b, [f] + F, [c] + C)[idx := f]
  {
    forall k | 0 <= k < |b| ensures Subst(b, F, C)[k] == Subst(b, [f] + F, [c] + C)[idx := f][k] {
      SwapCons(b[k], f, F, c, C);
    }
  }

  lemma DistinctSnoc(s: seq<NodeId>, x: NodeId)
    requires Distinct(s) && x !in s
    ensures Distinct(s + [x])
  {
    forall i, j | 0 <= i < j < |s| + 1 ensures (s + [x])[i] != (s + [x])[j] {
      if j == |s| {
        assert (s + [x])[i] == s[i];
      } else {
        assert (s + [x])[i] == s[i] && (s + [x])[j] == s[j];
      }
    }
  }

  lemma NotInSnoc(s: seq<NodeId>, x: NodeId)
    requires Distinct(s + [x])
    ensures x !in s
  {
    forall k | 0 <= k < |s| ensures s[k] != x {
      assert (s + [x])[k] == s[k] && (s + [x])[|s|] == x;
    }
  }

  lemma RelocateKids(d: Document, d2: Document, base: Document, form: NodeId, F: seq<NodeId>, C: seq<NodeId>, f: NodeId, c: NodeId, P: NodeId, idx: nat)
    requires |F| == |C| && Valid(base) && f !in F
    requires KidsAgree(d, base, form, F, C)
    requires ParentOf(base, f) == Some(P) && P != form && idx < |Kids(base, P)| && Kids(base, P)[idx] == f
    requires forall k :: 0 <= k < |Kids(base, P)| && k != idx ==> Kids(base, P)[k] != f
    requires forall q: NodeId :: (Kids(d2, q) ==
      if q == P then Kids(d, P)[idx := c] else if q == form then Kids(d, form) + [f] else Kids(d, q))
    ensures KidsAgree(d2, base, form, F + [f], C + [c])
  {
    SubstSnocAt(Kids(base, P), F, C, f, c, idx);
    forall q: NodeId ensures Kids(d2, q) == if q == form then Kids(base, form) + (F + [f]) else Subst(Kids(base, q), F + [f], C + [c]) {
      if q != form && q != P {
        assert f !in Kids(base, q);
        SubstSnocOff(Kids(base, q), F, C, f, c);
      }
    }
  }

  lemma RelocateParents(d: Document, d2: Document, base: Document, form: NodeId, F: seq<NodeId>, C: seq<NodeId>, f: NodeId, c: NodeId, P: NodeId)
    requires |F| == |C| && f !in F && f !in C && c !in F && c !in C && f != c
    requires ParentsAgree(d, base, form, F, C)
    requires ParentOf(base, f) == Some(P)
    requires forall m: NodeId :: ParentOf(d2, m) == if m == f then Some(form) else if m == c then Some(P) else ParentOf(d, m)
    ensures ParentsAgree(d2, base, form, F + [f], C + [c])
  {
    forall m: NodeId ensures ParentOf(d2, m) == (
      if m in F + [f] then Some(form)
      else if m in C + [c] then ParentOf(base, (F + [f])[IndexOf(C + [c], m)])
      else ParentOf(base, m))
    {
      if m == c {
        IndexOfLast(C, c);
      } else if m != f && m in C {
        IndexOfSnoc(C, m, c);
      }
    }
  }

  /** The relation after one more file has moved, given how the two DOM calls
      changed the document. */
  lemma RelocateAgrees(d: Document, d2: Document, base: Document, form: NodeId, F: seq<NodeId>, C: seq<NodeId>, f: NodeId, c: NodeId, P: NodeId, idx: nat)
    requires |F| == |C|
    requires Relocatable(base, form, F + [f], C + [c])
    requires Agrees(d, base, form, F, C)
    requires ParentOf(base, f) == Some(P) && idx < |Kids(base, P)| && Kids(base, P)[idx] == f
    requires forall q: NodeId :: (Kids(d2, q) ==
      if q == P then Kids(d, P)[idx := c] else if q == form then Kids(d, form) + [f] else Kids(d, q))
    requires forall m: NodeId :: ParentOf(d2, m) == if m == f then Some(form) else if m == c then Some(P) else ParentOf(d, m)
    ensures Agrees(d2, base, form, F + [f], C + [c])
  {
    assert f in F + [f];
    assert c in C + [c] && c !in F + [f];
    assert f !in C + [c];
    NotInSnoc(F, f);
    NotInSnoc(C, c);
    RelocateKids(d, d2, base, form, F, C, f, c, P, idx);
    RelocateParents(d, d2, base, form, F, C, f, c, P);
  }

  /** Before its turn, a file still stands where it stood in `base`, and its
      clone is detached. */
  lemma FileInPlace(d: Document, base: Document, form: NodeId, F: seq<NodeId>, C: seq<NodeId>, f: NodeId, c: NodeId, P: NodeId, idx: nat)
    requires |F| == |C|
    requires Relocatable(base, form, F + [f], C + [c])
    requires Agrees(d, base, form, F, C)
    requires ParentOf(base, f) == Some(P) && f in Kids(base, P) && idx == IndexOf(Kids(base, P), f)
    ensures P != form && ParentOf(d, f) == Some(P) && ParentOf(d, c) == None
    ensures idx < |Kids(d, P)| && Kids(d, P)[idx] == f && f !in Kids(d, P)[..idx]
  {
    assert f in F + [f];
    assert c in C + [c] && c !in F + [f];
    NotInSnoc(F, f);
    NotInSnoc(C, c);
    var b := Kids(base, P);
    var s := Kids(d, P);
    forall k | 0 <= k < idx ensures s[k] != f {
      assert b[k] != b[idx];
      if b[k] in F {
        assert s[k] in C;
        assert s[k] in C + [c];
      }
    }
  }

  /** One turn of the loop in `send`: `fpEle.insertBefore(clone, fEle)` and
      then `form.appendChild(fEle)` extend the relation by one file. */
  lemma RelocateOne(d: Document, base: Document, form: NodeId, F: seq<NodeId>, C: seq<NodeId>, f: NodeId, c: NodeId)
    requires |F| == |C|
    requires Relocatable(base, form, F + [f], C + [c])
    requires Agrees(d, base, form, F, C)
    ensures ParentOf(base, f).Some? && ParentOf(d, f) == ParentOf(base, f)
    ensures f in Kids(Detach(d, c), ParentOf(base, f).value)
    ensures Agrees(AppendChild(InsertBefore(d, ParentOf(base, f).value, c, f), form, f), base, form, F + [f], C + [c])
  {
    var P := ParentOf(base, f).value;
    var idx := IndexOf(Kids(base, P), f);
    var s := Kids(d, P);
    FileInPlace(d, base, form, F, C, f, c, P, idx);
    InsertDetachedEffect(d, P, c, f, idx);
    var d1 := InsertBefore(d, P, c, f);
    var t := s[..idx] + [c] + s[idx..];
    assert t[..idx + 1] == s[..idx] + [c];
    AppendMovedEffect(d1, form, f, P, idx + 1);
    InsertThenRemove(s, idx, c);
    RelocateAgrees(d, AppendChild(d1, form, f), base, form, F, C, f, c, P, idx);
  }

  lemma NotInCons(x: NodeId, s: seq<NodeId>)
    requires Distinct([x] + s)
    ensures x !in s
  {
    forall k | 0 <= k < |s| ensures s[k] != x {
      assert ([x] + s)[k + 1] == s[k] && ([x] + s)[0] == x;
    }
  }

  /** Before the first record is undone, its file is the first moved node in
      the form and its clone stands where the file stood in `base`. */
  lemma CloneInPlace(d: Document, base: Document, form: NodeId, f: NodeId, F: seq<NodeId>, c: NodeId, C: seq<NodeId>, P: NodeId, idx: nat)
    requires |F| == |C|
    requires Relocatable(base, form, [f] + F, [c] + C)
    requires Agrees(d, base, form, [f] + F, [c] + C)
    requires ParentOf(base, f) == Some(P) && f in Kids(base, P) && idx == IndexOf(Kids(base, P), f)
    ensures P != form && f != c && ParentOf(d, f) == Some(form)
    ensures var j := |Kids(base, form)|;
      j < |Kids(d, form)| && Kids(d, form)[j] == f && f !in Kids(d, form)[..j]
    ensures idx < |Kids(d, P)| && Kids(d, P)[idx] == c && c !in Kids(d, P)[..idx]
  {
    assert f in [f] + F;
    assert c in [c] + C && c !in [f] + F;
    NotInCons(f, F);
    NotInCons(c, C);
    var b := Kids(base, P);
    var s := Kids(d, P);
    SwapCons(f, f, F, c, C);
    forall k | 0 <= k < idx ensures s[k] != c {
      assert b[k] != b[idx];
      SwapCons(b[k], f, F, c, C);
      if b[k] in F {
        assert s[k] in C;
      } else {
        assert b[k] != c by {
          assert Unused(base, c);
        }
      }
    }
    var j := |Kids(base, form)|;
    assert Kids(d, form)[..j] == Kids(base, form);
  }

  lemma RestoreKids(d: Document, d2: Document, base: Document, form: NodeId, f: NodeId, F: seq<NodeId>, c: NodeId, C: seq<NodeId>, P: NodeId, idx: nat)
    requires |F| == |C| && Valid(base) && f !in F
    requires KidsAgree(d, base, form, [f] + F, [c] + C)
    requires ParentOf(base, f) == Some(P) && P != form && idx < |Kids(base, P)| && Kids(base, P)[idx] == f
    requires forall k :: 0 <= k < |Kids(base, P)| && k != idx ==> Kids(base, P)[k] != f
    requires forall q: NodeId :: (Kids(d2, q) ==
      if q == P then Kids(d, P)[idx := f]
      else if q == form then RemoveAt(Kids(d, form), |Kids(base, form)|)
      else Kids(d, q))
    ensures KidsAgree(d2, base, form, F, C)
  {
    SubstConsAt(Kids(base, P), f, F, c, C, idx);
    var w := Kids(base, form);
    assert RemoveAt(w + ([f] + F), |w|) == w + F by {
      assert (w + ([f] + F))[..|w|] == w;
      assert (w + ([f] + F))[|w| + 1..] == F;
    }
    forall q: NodeId ensures Kids(d2, q) == if q == form then Kids(base, form) + F else Subst(Kids(base, q), F, C) {
      if q != form && q != P {
        assert f !in Kids(base, q);
        SubstConsOff(Kids(base, q), f, F, c, C);
      }
    }
  }

  lemma RestoreParents(d: Document, d2: Document, base: Document, form: NodeId, f: NodeId, F: seq<NodeId>, c: NodeId, C: seq<NodeId>, P: NodeId)
    requires |F| == |C| && f !in F && f !in C && c !in F && c !in C && f != c
    requires ParentsAgree(d, base, form, [f] + F, [c] + C)
    requires ParentOf(base, f) == Some(P) && ParentOf(base, c) == None
    requires forall m: NodeId :: ParentOf(d2, m) == if m == f then Some(P) else if m == c then None else ParentOf(d, m)
    ensures ParentsAgree(d2, base, form, F, C)
  {
    forall m: NodeId ensures ParentOf(d2, m) == (
      if m in F then Some(form)
      else if m in C then ParentOf(base, F[IndexOf(C, m)])
      else ParentOf(base, m))
    {
      if m != f && m != c && m in C {
        IndexOfCons(c, C, m);
        assert ([f] + F)[1 + IndexOf(C, m)] == F[IndexOf(C, m)];
      }
    }
  }

  /** The relation after the first record is undone, given how the two DOM
      calls changed the document. */
  lemma RestoreAgrees(d: Document, d2: Document, base: Document, form: NodeId, f: NodeId, F: seq<NodeId>, c: NodeId, C: seq<NodeId>, P: NodeId, idx: nat)
    requires |F| == |C|
    requires Relocatable(base, form, [f] + F, [c] + C)
    requires Agrees(d, base, form, [f] + F, [c] + C)
    requires ParentOf(base, f) == Some(P) && P != form && idx < |Kids(base, P)| && Kids(base, P)[idx] == f
    requires forall q: NodeId :: (Kids(d2, q) ==
      if q == P then Kids(d, P)[idx := f]
      else if q == form then RemoveAt(Kids(d, form), |Kids(base, form)|)
      else Kids(d, q))
    requires forall m: NodeId :: ParentOf(d2, m) == if m == f then Some(P) else if m == c then None else ParentOf(d, m)
    ensures Agrees(d2, base, form, F, C)
  {
    assert f in [f] + F;
    assert c in [c] + C && c !in [f] + F;
    assert f !in [c] + C;
    assert Unused(base, c);
    NotInCons(f, F);
    NotInCons(c, C);
    RestoreKids(d, d2, base, form, f, F, c, C, P, idx);
    RestoreParents(d, d2, base, form, f, F, c, C, P);
  }

  /** One turn of the loop in `clean`: `parent.insertBefore(fEle, clone)` and
      then `parent.removeChild(clone)` undo the first record. */
  lemma RestoreOne(d: Document, base: Document, form: NodeId, f: NodeId, F: seq<NodeId>, c: NodeId, C: seq<NodeId>)
    requires |F| == |C|
    requires Relocatable(base, form, [f] + F, [c] + C)
    requires Agrees(d, base, form, [f] + F, [c] + C)
    ensures ParentOf(base, f).Some? && ParentOf(base, c) == None
    ensures c in Kids(Detach(d, f), ParentOf(base, f).value)
    ensures c in Kids(InsertBefore(d, ParentOf(base, f).value, f, c), ParentOf(base, f).value)
    ensures Agrees(RemoveChild(InsertBefore(d, ParentOf(base, f).value, f, c), ParentOf(base, f).value, c), base, form, F, C)
  {
    assert f in [f] + F && c in [c] + C;
    assert Unused(base, c);
    var P := ParentOf(base, f).value;
    var idx := IndexOf(Kids(base, P), f);
    CloneInPlace(d, base, form, f, F, c, C, P, idx);
    ReplaceEffect(d, P, f, c, form, |Kids(base, form)|, idx);
    RestoreAgrees(d, RemoveChild(InsertBefore(d, P, f, c), P, c), base, form, f, F, c, C, P, idx);
  }

  /** The loop in `send` takes one more file and a node never seen before as its clone. */
  lemma RelocatableNext(base: Document, form: NodeId, files: seq<NodeId>, clones: seq<NodeId>, i: nat, c: NodeId)
    requires FilesReady(base, form, files) && i < |files|
    requires Relocatable(base, form, files[..i], clones)
    requires Unused(base, c) && c != form && c !in files && c !in clones
    requires forall x :: x in clones ==> x !in files
    ensures files[..i + 1] == files[..i] + [files[i]]
    ensures Relocatable(base, form, files[..i] + [files[i]], clones + [c])
  {
    var F, C := files[..i + 1], clones + [c];
    assert F == files[..i] + [files[i]];
    DistinctSnoc(clones, c);
    DistinctPrefix(files, i + 1);
    forall f | f in F ensures f in files {
      var k :| 0 <= k < i + 1 && F[k] == f;
      assert files[k] == f;
    }
    forall x | x in C ensures x != form && x !in F && Unused(base, x) {
      if x != c {
        assert x in clones;
      }
    }
    assert FilesReady(base, form, F);
    assert Relocatable(base, form, F, C);
  }

  lemma DistinctPrefix(s: seq<NodeId>, n: nat)
    requires Distinct(s) && n <= |s|
    ensures Distinct(s[..n])
  {
    forall i, j | 0 <= i < j < n ensures s[..n][i] != s[..n][j] {
      assert s[..n][i] == s[i] && s[..n][j] == s[j];
    }
  }

  /** Files attached in `base` are nodes `base` knows. */
  lemma FilesBelow(base: Document, form: NodeId, files: seq<NodeId>, next: nat)
    requires FilesReady(base, form, files) && Below(base, next)
    ensures forall f :: f in files ==> f < next
  {
  }

  lemma SubstRemoveAt(b: seq<NodeId>, F: seq<NodeId>, C: seq<NodeId>, i: nat)
    requires |F| == |C| && i < |b|
    ensures RemoveAt(Subst(b, F, C), i) == Subst(RemoveAt(b, i), F, C)
  {
    var l := RemoveAt(Subst(b, F, C), i);
    var r := Subst(RemoveAt(b, i), F, C);
    forall k | 0 <= k < |l| ensures l[k] == r[k] {
      RemoveAtAt(Subst(b, F, C), i, k);
      RemoveAtAt(b, i, k);
    }
  }

  /** `frame.parentNode.removeChild(frame)` at the start of `clean`: removing
      a node that is not part of the relocation, from a parent other than
      the form, can be done on `base` instead. */
  lemma RemoveOther(d: Document, base: Document, form: NodeId, F: seq<NodeId>, C: seq<NodeId>, p: NodeId, x: NodeId)
    requires |F| == |C|
    requires Relocatable(base, form, F, C)
    requires Agrees(d, base, form, F, C)
    requires p != form && x in Kids(base, p) && x !in F && x !in C
    ensures ParentOf(d, x) == Some(p) && x in Kids(d, p)
    ensures x in Kids(base, p) && Relocatable(RemoveChild(base, p, x), form, F, C)
    ensures Agrees(RemoveChild(d, p, x), RemoveChild(base, p, x), form, F, C)
  {
    var b := Kids(base, p);
    var i := IndexOf(b, x);
    var s := Kids(d, p);
    assert ParentOf(base, x) == Some(p) by {
      assert ParentOf(base, b[i]) == Some(p);
    }
    forall k | 0 <= k < i ensures s[k] != x {
      assert b[k] != b[i];
      if b[k] in F {
        assert s[k] in C;
      }
    }
    RemoveAtEffect(d, p, x, i);
    RemoveChildValid(base, p, x);
    SubstRemoveAt(b, F, C, i);
    var base' := RemoveChild(base, p, x);
    forall c | c in C ensures Unused(base', c) {
      assert Unused(base, c);
      assert c != p;
    }
  }
}
