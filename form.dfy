/** The data `send` posts: the params after `init` has added the
    `windowname = 1` mark, and the hidden form fields built from them, one
    field per own key, or one `key[]` field per element when the value is an
    array. */
module Form {
  import opened Values

  /** One input that `genInput(name, value)` creates. */
  datatype Field = Field(name: string, value: Value)

  /** The key of the mark the relay adds to every request. */
  const Mark: string := "windowname"

  /** The own entries of `this.params` after `this.params = options.params || {}`
      and `this.params.windowname = 1`. An array, an object or a host object
      takes the mark as an own property; a truthy primitive silently drops it;
      a falsy value is replaced by a fresh object holding only the mark. */
  function ParamsEntries(p: Value): (es: seq<Entry>)
    requires p.Obj? ==> DistinctKeys(p.entries)
    ensures DistinctKeys(es)
    ensures !Truthy(p) || p.Obj? || p.Arr? || p.Node? ==> Find(es, Mark) == Some(Num(1))
    ensures forall k :: k != Mark ==> Find(es, k) == Find(OwnEntries(p), k)
  {
    OwnEntriesDistinct(p);
    if !Truthy(p) then
      [Entry(Mark, Num(1))]
    else if p.Obj? || p.Arr? || p.Node? then
      PutDistinct(OwnEntries(p), Mark, Num(1));
      Put(OwnEntries(p), Mark, Num(1))
    else
      OwnEntries(p)
  }

  /** Reading the params through a structural copy of the options gives the
      same entries, up to container ids. */
  lemma ParamsOfShape(a: Value, b: Value)
    requires Erase(a) == Erase(b) && (b.Obj? ==> DistinctKeys(b.entries))
    ensures a.Obj? ==> DistinctKeys(a.entries)
    ensures EraseEntries(ParamsEntries(a)) == EraseEntries(ParamsEntries(b))
  {
    KindOfShape(a, b);
    if a.Obj? {
      DistinctByKeys(b.entries, a.entries);
    }
    OwnEntriesOfShape(a, b);
    if Truthy(a) && (a.Obj? || a.Arr? || a.Node?) {
      ErasePut(OwnEntries(a), Mark, Num(1));
      ErasePut(OwnEntries(b), Mark, Num(1));
    }
  }

  /** The fields one own entry of the params turns into. */
  function Expand(e: Entry): seq<Field> {
    if IsArray(e.val) then
      seq(|e.val.items|, i requires 0 <= i < |e.val.items| => Field(e.key + "[]", e.val.items[i]))
    else
      [Field(e.key, e.val)]
  }

  /** The fields of the first loop of `send`, in the order they are appended. */
  function FormFields(es: seq<Entry>): seq<Field> {
    if es == [] then [] else Expand(es[0]) + FormFields(es[1..])
  }

  /** The fields posted under one name, in order. */
  function Named(fs: seq<Field>, n: string): (r: seq<Field>)
    ensures forall f :: f in r <==> f in fs && f.name == n
  {
    if fs == [] then []
    else if fs[0].name == n then [fs[0]] + Named(fs[1..], n)
    else Named(fs[1..], n)
  }

  /** The loop in `send` appends the fields of one entry after those of the
      entries before it. */
  lemma {:induction false} FormFieldsAppend(es: seq<Entry>, e: Entry)
    ensures FormFields(es + [e]) == FormFields(es) + Expand(e)
  {
    if es == [] {
      assert FormFields([e]) == Expand(e) + FormFields([]);
    } else {
      assert (es + [e])[1..] == es[1..] + [e];
      FormFieldsAppend(es[1..], e);
    }
  }

  /** A field is posted exactly when it comes from one of the entries. */
  lemma {:induction false} FieldsFromEntries(es: seq<Entry>, f: Field)
    ensures f in FormFields(es) <==> exists i :: 0 <= i < |es| && f in Expand(es[i])
  {
    if es != [] {
      FieldsFromEntries(es[1..], f);
      if f in FormFields(es[1..]) {
        var i :| 0 <= i < |es[1..]| && f in Expand(es[1..][i]);
        assert f in Expand(es[i + 1]);
      }
      if exists i :: 0 <= i < |es| && f in Expand(es[i]) {
        var i :| 0 <= i < |es| && f in Expand(es[i]);
        if i > 0 {
          assert f in Expand(es[1..][i - 1]);
        }
      }
    }
  }

  /** The fields of one entry: the entry itself when its value is not an
      array, otherwise the array's elements under the key followed by `[]`. */
  lemma ExpandMembers(e: Entry, f: Field)
    ensures f in Expand(e) <==>
      if IsArray(e.val) then f.name == e.key + "[]" && f.value in e.val.items else f == Field(e.key, e.val)
  {
    if IsArray(e.val) && f.name == e.key + "[]" && f.value in e.val.items {
      var j :| 0 <= j < |e.val.items| && e.val.items[j] == f.value;
      assert Expand(e)[j] == f;
    }
  }

  lemma {:induction false} NamedAppend(a: seq<Field>, b: seq<Field>, n: string)
    ensures Named(a + b, n) == Named(a, n) + Named(b, n)
  {
    if a == [] {
      assert a + b == b;
    } else {
      assert (a + b)[0] == a[0];
      assert (a + b)[1..] == a[1..] + b;
      NamedAppend(a[1..], b, n);
    }
  }

  /** No array expansion is posted under the mark's name. */
  lemma NamedExpandMark(e: Entry)
    ensures Named(Expand(e), Mark) == if e.key == Mark && !IsArray(e.val) then [Field(Mark, e.val)] else []
  {
    if IsArray(e.val) {
      forall f | f in Expand(e) ensures f.name != Mark {
        var j :| 0 <= j < |Expand(e)| && Expand(e)[j] == f;
        assert f.name == e.key + "[]";
        assert f.name[|f.name| - 1] == ']';
      }
      assert forall f :: f in Named(Expand(e), Mark) ==> false;
      if Named(Expand(e), Mark) != [] {
        assert Named(Expand(e), Mark)[0] in Named(Expand(e), Mark);
      }
    }
  }

  lemma {:induction false} NoMarkFields(es: seq<Entry>)
    requires Mark !in Keys(es)
    ensures Named(FormFields(es), Mark) == []
  {
    if es != [] {
      assert es[0].key == Keys(es)[0];
      assert Keys(es[1..]) == Keys(es)[1..];
      NamedExpandMark(es[0]);
      NoMarkFields(es[1..]);
      NamedAppend(Expand(es[0]), FormFields(es[1..]), Mark);
    }
  }

  /** Appending `[]` to two different keys gives two different names. */
  lemma BracketsApart(a: string, b: string)
    requires a != b
    ensures a + "[]" != b + "[]"
  {
    if |a| == |b| {
      assert (a + "[]")[..|a|] == a && (b + "[]")[..|b|] == b;
    }
  }

  /** An entry whose key is not `n`, and is not `n` without its `[]` when
      its value is an array, posts nothing under `n`. */
  lemma NamedExpandOther(e: Entry, n: string)
    requires e.key != n && (IsArray(e.val) ==> e.key + "[]" != n)
    ensures Named(Expand(e), n) == []
  {
    forall f | f in Expand(e) ensures f.name != n {
      ExpandMembers(e, f);
    }
    if Named(Expand(e), n) != [] {
      assert Named(Expand(e), n)[0] in Named(Expand(e), n);
    }
  }

  lemma {:induction false} NamedNone(es: seq<Entry>, k: string)
    requires forall j :: 0 <= j < |es| ==> es[j].key != k && es[j].key != k + "[]"
    ensures Named(FormFields(es), k + "[]") == []
  {
    if es != [] {
      BracketsApart(es[0].key, k);
      NamedExpandOther(es[0], k + "[]");
      NamedNone(es[1..], k);
      NamedAppend(Expand(es[0]), FormFields(es[1..]), k + "[]");
    }
  }

  /** The fields posted under `k[]` for a key `k` whose value is an array are
      that array's elements, in the array's order, when no other key is
      itself `k[]`. */
  lemma {:induction false} ArrayPosted(es: seq<Entry>, k: string, id: nat, items: seq<Value>)
    requires DistinctKeys(es) && Find(es, k) == Some(Arr(id, items)) && k + "[]" !in Keys(es)
    ensures Named(FormFields(es), k + "[]") == seq(|items|, i requires 0 <= i < |items| => Field(k + "[]", items[i]))
  {
    var n := k + "[]";
    HeadKey(es);
    assert Keys(es[1..]) == Keys(es)[1..];
    NamedAppend(Expand(es[0]), FormFields(es[1..]), n);
    if es[0].key == k {
      var x := Expand(es[0]);
      assert forall f :: f in x ==> f.name == n;
      NamedAll(x, n);
      forall j | 0 <= j < |es[1..]| ensures es[1..][j].key != k && es[1..][j].key != n {
        assert Keys(es[1..])[j] == es[1..][j].key;
      }
      NamedNone(es[1..], k);
    } else {
      assert es[0].key != n;
      BracketsApart(es[0].key, k);
      NamedExpandOther(es[0], n);
      ArrayPosted(es[1..], k, id, items);
    }
  }

  lemma {:induction false} NamedAll(fs: seq<Field>, n: string)
    requires forall f :: f in fs ==> f.name == n
    ensures Named(fs, n) == fs
  {
    if fs != [] {
      assert fs[0] in fs;
      NamedAll(fs[1..], n);
    }
  }

  /** With distinct keys and the mark set to 1, exactly one field carries the
      mark's name, and it posts 1. */
  lemma {:induction false} MarkOnceEntries(es: seq<Entry>)
    requires DistinctKeys(es) && Find(es, Mark) == Some(Num(1))
    ensures Named(FormFields(es), Mark) == [Field(Mark, Num(1))]
  {
    assert es != [];
    NamedExpandMark(es[0]);
    NamedAppend(Expand(es[0]), FormFields(es[1..]), Mark);
    HeadKey(es);
    if es[0].key == Mark {
      NoMarkFields(es[1..]);
    } else {
      MarkOnceEntries(es[1..]);
    }
  }

  lemma HeadKey(es: seq<Entry>)
    requires DistinctKeys(es) && es != []
    ensures DistinctKeys(es[1..]) && es[0].key !in Keys(es[1..])
    ensures forall k :: k != es[0].key ==> Find(es[1..], k) == Find(es, k)
  {
    forall j | 0 <= j < |es[1..]| ensures Keys(es[1..])[j] != es[0].key {
      assert es[0].key != es[j + 1].key;
    }
  }

  /** The request carries the mark `windowname=1` exactly once whenever the
      params can hold it: they are absent or falsy, an object, an array or a
      host object. */
  lemma MarkPostedOnce(p: Value)
    requires p.Obj? ==> DistinctKeys(p.entries)
    requires !Truthy(p) || p.Obj? || p.Arr? || p.Node?
    ensures Named(FormFields(ParamsEntries(p)), Mark) == [Field(Mark, Num(1))]
  {
    MarkOnceEntries(ParamsEntries(p));
  }

  /** A truthy primitive as params loses the mark: nothing is posted under it. */
  lemma MarkLostOnPrimitive(p: Value)
    requires Truthy(p) && !p.Obj? && !p.Arr? && !p.Node?
    ensures Named(FormFields(ParamsEntries(p)), Mark) == []
  {
    if p.Str? {
      forall k | k in Keys(OwnEntries(p)) ensures k != Mark {
        IndexKeysAreNumerals(Chars(p.s), k);
        assert !IsDigit(Mark[0]);
      }
    }
    NoMarkFields(ParamsEntries(p));
  }

  /** The example of the documentation: `params: {key: 'happy'}` posts
      `key=happy` and then the mark. */
  lemma HappyExample(id: nat)
    ensures FormFields(ParamsEntries(Obj(id, [Entry("key", Str("happy"))]))) ==
      [Field("key", Str("happy")), Field(Mark, Num(1))]
  {
    var es := [Entry("key", Str("happy"))];
    assert Keys(es) == ["key"];
    assert ParamsEntries(Obj(id, es)) == es + [Entry(Mark, Num(1))];
    FormFieldsAppend(es, Entry(Mark, Num(1)));
  }

  /** An array value becomes repeated `key[]` fields in array order. */
  lemma TagsExample(id: nat, aid: nat)
    ensures FormFields(ParamsEntries(Obj(id, [Entry("tags", Arr(aid, [Str("a"), Str("b")]))]))) ==
      [Field("tags[]", Str("a")), Field("tags[]", Str("b")), Field(Mark, Num(1))]
  {
    var es := [Entry("tags", Arr(aid, [Str("a"), Str("b")]))];
    assert Keys(es) == ["tags"];
    assert ParamsEntries(Obj(id, es)) == es + [Entry(Mark, Num(1))];
    FormFieldsAppend(es, Entry(Mark, Num(1)));
    var x := Expand(es[0]);
    assert |x| == 2 && x[0] == Field("tags[]", Str("a")) && x[1] == Field("tags[]", Str("b"));
    assert x == [Field("tags[]", Str("a")), Field("tags[]", Str("b"))];
    assert FormFields(es) == Expand(es[0]) + FormFields([]);
  }
}
