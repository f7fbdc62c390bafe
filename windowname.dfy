/** The `Transfer` object of windowname.js: `init` mounts a hidden frame and
    a hidden form in the page, `send` fills the form and moves the file
    inputs into it, the load handler runs the relay and, once the answer is
    in, `clean` puts the file inputs back and takes frame and form out. */
module WindowName {
  import opened Values
  import opened Dom
  import opened Relocation
  import opened Form
  import Relay

  const UrlEncoded: string := "application/x-www-form-urlencoded"
  const Multipart: string := "multipart/form-data"

  /** The options `extend` merges the caller's options onto. */
  function Defaults(): (es: seq<Entry>)
    ensures DistinctKeys(es) && Keys(es) == ["localProxy", "defaultName"]
    ensures Find(es, "localProxy") == Some(Str("/favicon.ico"))
    ensures Find(es, "defaultName") == Some(Str("cross.default.name"))
  {
    [Entry("localProxy", Str("/favicon.ico")), Entry("defaultName", Str("cross.default.name"))]
  }

  /** `options.params` and `options.files` as the caller passes them. */
  function ParamsOption(options: Value): Value {
    Get(OwnEntries(options), "params")
  }

  function FilesOption(options: Value): Value {
    Get(OwnEntries(options), "files")
  }

  /** `options.files || []` read as a list of element nodes; `None` for a value
      that is neither falsy nor an array of nodes. */
  function FileNodes(v: Value): (r: Option<seq<NodeId>>)
    ensures !Truthy(v) ==> r == Some([])
    ensures r.Some? && Truthy(v) ==>
      (v.Arr? && |r.value| == |v.items| && forall i :: 0 <= i < |v.items| ==> v.items[i] == Node(r.value[i]))
    ensures v.Arr? && (forall i :: 0 <= i < |v.items| ==> v.items[i].Node?) ==> r.Some?
  {
    if !Truthy(v) then Some([])
    else if v.Arr? && forall i :: 0 <= i < |v.items| ==> v.items[i].Node? then
      Some(seq(|v.items|, i requires 0 <= i < |v.items| => v.items[i].ref))
    else None
  }

  /** Structurally equal values name the same file nodes. */
  lemma FileNodesOfShape(a: Value, b: Value)
    requires Erase(a) == Erase(b)
    ensures FileNodes(a) == FileNodes(b)
  {
    KindOfShape(a, b);
    if a.Arr? {
      forall i | 0 <= i < |a.items|
        ensures a.items[i].Node? == b.items[i].Node? && (a.items[i].Node? ==> a.items[i] == b.items[i])
      {
        assert Erase(a.items[i]) == EraseItems(a.items)[i] == Erase(b.items[i]);
      }
      if Truthy(a) && FileNodes(a).Some? {
        assert FileNodes(a).value == FileNodes(b).value;
      }
    }
  }

  /** Keys not among the defaults are read from the copy of the caller's options. */
  lemma ReadMerged(merged: seq<Entry>, copy: Value, k: string)
    requires k != "localProxy" && k != "defaultName"
    requires forall k' :: (Find(merged, k') == if k' in Keys(OwnEntries(copy)) then Find(OwnEntries(copy), k') else Find(Defaults(), k'))
    ensures Find(merged, k) == Find(OwnEntries(copy), k)
  {
    assert Find(Defaults(), k) == None;
  }

  // ---------------------------------------------------------------------
  // The document while a transfer is alive

  /** The frame and the form are new to the page, distinct, and not the body. */
  ghost predicate Fresh(page: Document, top: nat, body: NodeId, frame: NodeId, form: NodeId) {
    Valid(page) && Below(page, top) && body < top && top <= frame && top <= form && frame != form
  }

  /** The inputs `send` creates are distinct and new. */
  ghost predicate InputsFresh(inputs: seq<NodeId>, top: nat, frame: NodeId, form: NodeId) {
    Distinct(inputs) && forall n :: n in inputs ==> top <= n && n != frame && n != form
  }

  /** Input `inputs[k]` carries the name and the value of field `posted[k]`. */
  ghost predicate Posts(inputs: seq<NodeId>, posted: seq<Field>, fieldOf: map<NodeId, Field>) {
    && |inputs| == |posted|
    && forall k :: 0 <= k < |inputs| ==> inputs[k] in fieldOf && fieldOf[inputs[k]] == posted[k]
  }

  /** The `n` consecutive node numbers from `lo`. */
  function Span(lo: nat, n: nat): (s: seq<NodeId>)
    ensures |s| == n && forall k :: 0 <= k < n ==> s[k] == lo + k
  {
    seq(n, k requires 0 <= k < n => (lo + k) as NodeId)
  }

  lemma SpanAppend(lo: nat, a: nat, b: nat)
    ensures Span(lo, a) + Span(lo + a, b) == Span(lo, a + b)
  {
  }

  ghost predicate StagedKids(page: Document, d: Document, body: NodeId, frame: NodeId, form: NodeId, inputs: seq<NodeId>) {
    forall q: NodeId :: (Kids(d, q) ==
      if q == body then Kids(page, body) + [frame, form] else if q == form then inputs else Kids(page, q))
  }

  ghost predicate StagedParents(page: Document, d: Document, body: NodeId, frame: NodeId, form: NodeId, inputs: seq<NodeId>) {
    forall m: NodeId :: (ParentOf(d, m) ==
      if m == frame || m == form then Some(body) else if m in inputs then Some(form) else ParentOf(page, m))
  }

  /** `d` is the page with frame and form appended to the body and the
      inputs appended to the form. */
  ghost predicate Staged(page: Document, top: nat, d: Document, body: NodeId, frame: NodeId, form: NodeId, inputs: seq<NodeId>) {
    && Fresh(page, top, body, frame, form)
    && InputsFresh(inputs, top, frame, form)
    && StagedKids(page, d, body, frame, form, inputs)
    && StagedParents(page, d, body, frame, form, inputs)
  }

  /** The page as `clean` leaves it: every element has its children back, and
      only the detached form still holds the inputs `send` created. */
  ghost predicate Restored(page: Document, d: Document, form: NodeId, inputs: seq<NodeId>) {
    && (forall q: NodeId :: q != form ==> Kids(d, q) == Kids(page, q))
    && Kids(d, form) == inputs
    && (forall m: NodeId :: ParentOf(d, m) == if m in inputs then Some(form) else ParentOf(page, m))
  }

  /** The two `document.body.appendChild` calls of `init`: the page with
      frame and form last in the body, and nothing else changed. */
  method Mount(page: Document, top: nat, body: NodeId, frame: NodeId, form: NodeId) returns (d: Document)
    requires Fresh(page, top, body, frame, form) && frame < form
    ensures Valid(d) && Below(d, form + 1)
    ensures Staged(page, top, d, body, frame, form, [])
  {
    MountEffect(page, top, body, frame, form);
    d := AppendChild(page, body, frame);
    d := AppendChild(d, body, form);
  }

  lemma MountEffect(page: Document, top: nat, body: NodeId, frame: NodeId, form: NodeId)
    requires Fresh(page, top, body, frame, form) && frame < form
    ensures Valid(AppendChild(AppendChild(page, body, frame), body, form))
    ensures Below(AppendChild(AppendChild(page, body, frame), body, form), form + 1)
    ensures Staged(page, top, AppendChild(AppendChild(page, body, frame), body, form), body, frame, form, [])
  {
    BelowUnused(page, top, frame);
    BelowUnused(page, top, form);
    AppendUnusedValid(page, body, frame);
    var d1 := AppendChild(page, body, frame);
    assert Unused(d1, form);
    AppendUnusedValid(d1, body, form);
    AppendBelow(page, body, frame, form + 1);
    AppendBelow(d1, body, form, form + 1);
    assert Kids(page, body) + [frame] + [form] == Kids(page, body) + [frame, form];
  }

  /** `form.appendChild(genInput(name, value))` for one new input. */
  lemma StageInput(page: Document, top: nat, d: Document, body: NodeId, frame: NodeId, form: NodeId, inputs: seq<NodeId>, n: NodeId)
    requires Staged(page, top, d, body, frame, form, inputs) && Valid(d) && Below(d, n)
    requires top <= n && n != frame && form < n
    ensures Valid(AppendChild(d, form, n)) && Below(AppendChild(d, form, n), n + 1)
    ensures Staged(page, top, AppendChild(d, form, n), body, frame, form, inputs + [n])
  {
    BelowUnused(d, n, n);
    AppendUnusedValid(d, form, n);
    AppendBelow(d, form, n, n + 1);
    InputsFreshAppend(d, inputs, top, body, frame, form, n);
    StagedKidsAppend(page, d, AppendChild(d, form, n), body, frame, form, inputs, n);
    StagedParentsAppend(page, d, AppendChild(d, form, n), body, frame, form, inputs, n);
  }

  lemma InputsFreshAppend(d: Document, inputs: seq<NodeId>, top: nat, body: NodeId, frame: NodeId, form: NodeId, n: NodeId)
    requires InputsFresh(inputs, top, frame, form) && top <= n && n != frame && n != form
    requires forall m :: m in inputs ==> ParentOf(d, m) == Some(form)
    requires ParentOf(d, n) == None
    ensures InputsFresh(inputs + [n], top, frame, form)
  {
  }

  lemma StagedKidsAppend(page: Document, d: Document, r: Document, body: NodeId, frame: NodeId, form: NodeId, inputs: seq<NodeId>, n: NodeId)
    requires StagedKids(page, d, body, frame, form, inputs) && body != form
    requires forall q: NodeId :: Kids(r, q) == if q == form then Kids(d, form) + [n] else Kids(d, q)
    ensures StagedKids(page, r, body, frame, form, inputs + [n])
  {
  }

  lemma StagedParentsAppend(page: Document, d: Document, r: Document, body: NodeId, frame: NodeId, form: NodeId, inputs: seq<NodeId>, n: NodeId)
    requires StagedParents(page, d, body, frame, form, inputs) && n != frame && n != form
    requires forall m: NodeId :: ParentOf(r, m) == if m == n then Some(form) else ParentOf(d, m)
    ensures StagedParents(page, r, body, frame, form, inputs + [n])
  {
  }

  /** The file inputs are as `send` needs them: distinct, attached in the
      page, and so outside the frame, the form and the new inputs. */
  lemma FilesReadyInStage(page: Document, top: nat, d: Document, body: NodeId, frame: NodeId, form: NodeId, inputs: seq<NodeId>, files: seq<NodeId>)
    requires Staged(page, top, d, body, frame, form, inputs) && Valid(d)
    requires Distinct(files) && forall f :: f in files ==> ParentOf(page, f).Some?
    ensures FilesReady(d, form, files)
    ensures forall f :: f in files ==> f < top && ParentOf(d, f) == ParentOf(page, f)
  {
    forall f | f in files ensures f < top && ParentOf(d, f) == ParentOf(page, f) && ParentOf(d, f).value != form {
      assert f in page.parent;
      var p := ParentOf(page, f).value;
      assert f in Kids(page, p);
      assert p in page.kids;
    }
  }

  /** `document.body.removeChild(this._frame)` on the staged document. */
  lemma Unframe(page: Document, top: nat, base: Document, body: NodeId, frame: NodeId, form: NodeId, inputs: seq<NodeId>)
    requires Staged(page, top, base, body, frame, form, inputs)
    ensures frame in Kids(base, body)
    ensures forall q: NodeId :: (Kids(RemoveChild(base, body, frame), q) ==
      if q == body then Kids(page, body) + [form] else if q == form then inputs else Kids(page, q))
    ensures forall m: NodeId :: (ParentOf(RemoveChild(base, body, frame), m) ==
      if m == form then Some(body) else if m in inputs then Some(form) else ParentOf(page, m))
  {
    var w := Kids(page, body);
    BelowUnused(page, top, frame);
    BelowUnused(page, top, form);
    assert frame !in w;
    assert (w + [frame, form])[..|w|] == w;
    RemoveAtEffect(base, body, frame, |w|);
    assert RemoveAt(w + [frame, form], |w|) == w + [form];
  }

  /** The last step of `clean`: once the file inputs are back and the frame is
      gone, removing the form from the body gives the page back. */
  lemma Unmount(page: Document, top: nat, d: Document, body: NodeId, form: NodeId, inputs: seq<NodeId>)
    requires Valid(page) && Below(page, top) && body < top && top <= form
    requires forall q: NodeId :: (Kids(d, q) ==
      if q == body then Kids(page, body) + [form] else if q == form then inputs else Kids(page, q))
    requires forall m: NodeId :: (ParentOf(d, m) ==
      if m == form then Some(body) else if m in inputs then Some(form) else ParentOf(page, m))
    requires forall n :: n in inputs ==> n != form
    ensures form in Kids(d, body)
    ensures Restored(page, RemoveChild(d, body, form), form, inputs)
  {
    var w := Kids(page, body);
    BelowUnused(page, top, form);
    assert form !in w;
    assert (w + [form])[..|w|] == w;
    RemoveAtEffect(d, body, form, |w|);
    assert RemoveAt(w + [form], |w|) == w;
  }

  /** The options `init` leaves: `params` and `files` deleted and
      `defaultName` set to the uuid. */
  function InitOptions(merged: seq<Entry>, uuid: string): seq<Entry> {
    Put(Remove(Remove(merged, "params"), "files"), "defaultName", Str(uuid))
  }

  /** What `extend(defaults, options)` promises about the merged options. */
  ghost predicate MergedFrom(merged: seq<Entry>, opts: Value, next: nat) {
    && DistinctKeys(merged)
    && forall k :: (Find(merged, k) == if k in Keys(OwnEntries(Clone(opts, next).0))
      then Find(OwnEntries(Clone(opts, next).0), k) else Find(Defaults(), k))
  }

  /** `this.options.params` read through the copy is the caller's params, up
      to container ids. */
  lemma ParamsRead(opts: Value, next: nat, merged: seq<Entry>)
    requires MergedFrom(merged, opts, next)
    requires ParamsOption(opts).Obj? ==> DistinctKeys(ParamsOption(opts).entries)
    ensures Get(merged, "params").Obj? ==> DistinctKeys(Get(merged, "params").entries)
    ensures EraseEntries(ParamsEntries(Get(merged, "params"))) == EraseEntries(ParamsEntries(ParamsOption(opts)))
  {
    var copy := Clone(opts, next).0;
    CloneShape(opts, next);
    ReadMerged(merged, copy, "params");
    ReadOfShape(copy, opts, "params");
    ParamsOfShape(Get(merged, "params"), ParamsOption(opts));
  }

  lemma FilesRead(opts: Value, next: nat, merged: seq<Entry>)
    requires MergedFrom(merged, opts, next)
    ensures FileNodes(Get(merged, "files")) == FileNodes(FilesOption(opts))
  {
    var copy := Clone(opts, next).0;
    CloneShape(opts, next);
    ReadMerged(merged, copy, "files");
    ReadOfShape(copy, opts, "files");
    FileNodesOfShape(Get(merged, "files"), FilesOption(opts));
  }

  lemma InitOptionsFind(merged: seq<Entry>, uuid: string, k: string)
    requires DistinctKeys(merged)
    ensures Find(InitOptions(merged, uuid), k) ==
      if k == "defaultName" then Some(Str(uuid)) else if k == "params" || k == "files" then None else Find(merged, k)
  {
  }

  /** The options after `init`: the uuid as `defaultName`, no `params` and no
      `files`, `localProxy` from the caller or the default, and every other
      key as the caller gave it. */
  lemma OptionsRead(opts: Value, next: nat, merged: seq<Entry>, uuid: string)
    requires MergedFrom(merged, opts, next)
    ensures DistinctKeys(InitOptions(merged, uuid))
    ensures Find(InitOptions(merged, uuid), "defaultName") == Some(Str(uuid))
    ensures Find(InitOptions(merged, uuid), "params") == None && Find(InitOptions(merged, uuid), "files") == None
    ensures Erase(Get(InitOptions(merged, uuid), "localProxy")) == Erase(if "localProxy" in Keys(OwnEntries(opts))
      then Get(OwnEntries(opts), "localProxy") else Str("/favicon.ico"))
    ensures forall k :: k != "params" && k != "files" && k != "defaultName" && k != "localProxy" ==>
      Erase(Get(InitOptions(merged, uuid), k)) == Erase(Get(OwnEntries(opts), k))
  {
    PutDistinct(Remove(Remove(merged, "params"), "files"), "defaultName", Str(uuid));
    InitOptionsFind(merged, uuid, "defaultName");
    InitOptionsFind(merged, uuid, "params");
    InitOptionsFind(merged, uuid, "files");
    LocalProxyRead(opts, next, merged, uuid);
    forall k | k != "params" && k != "files" && k != "defaultName" && k != "localProxy"
      ensures Erase(Get(InitOptions(merged, uuid), k)) == Erase(Get(OwnEntries(opts), k))
    {
      OtherRead(opts, next, merged, uuid, k);
    }
  }

  lemma LocalProxyRead(opts: Value, next: nat, merged: seq<Entry>, uuid: string)
    requires MergedFrom(merged, opts, next)
    ensures Erase(Get(InitOptions(merged, uuid), "localProxy")) == Erase(if "localProxy" in Keys(OwnEntries(opts))
      then Get(OwnEntries(opts), "localProxy") else Str("/favicon.ico"))
  {
    var copy := Clone(opts, next).0;
    CloneShape(opts, next);
    OwnKeysOfShape(copy, opts);
    InitOptionsFind(merged, uuid, "localProxy");
    ReadOfShape(copy, opts, "localProxy");
    assert Find(Defaults(), "localProxy") == Some(Str("/favicon.ico"));
  }

  lemma OtherRead(opts: Value, next: nat, merged: seq<Entry>, uuid: string, k: string)
    requires MergedFrom(merged, opts, next)
    requires k != "params" && k != "files" && k != "defaultName" && k != "localProxy"
    ensures Erase(Get(InitOptions(merged, uuid), k)) == Erase(Get(OwnEntries(opts), k))
  {
    var copy := Clone(opts, next).0;
    CloneShape(opts, next);
    InitOptionsFind(merged, uuid, k);
    ReadMerged(merged, copy, k);
    ReadOfShape(copy, opts, k);
  }

  /** What `init` makes of the caller's options: the options object
      it keeps, the params with the mark, the file inputs, the proxy location
      and the uuid. Values read through the copy `extend` makes are the
      caller's up to container ids. */
  ghost predicate Configured(opts: Value, time: nat, options: seq<Entry>, params: seq<Entry>, files: seq<NodeId>, localProxy: Value, uuid: string) {
    && uuid == Uuid(time)
    && (ParamsOption(opts).Obj? ==> DistinctKeys(ParamsOption(opts).entries))
    && DistinctKeys(options) && DistinctKeys(params)
    && EraseEntries(params) == EraseEntries(ParamsEntries(ParamsOption(opts)))
    && FileNodes(FilesOption(opts)) == Some(files)
    && Find(options, "defaultName") == Some(Str(uuid)) && localProxy == Get(options, "localProxy")
    && Find(options, "params") == None && Find(options, "files") == None
    && Erase(localProxy) == Erase(if "localProxy" in Keys(OwnEntries(opts))
      then Get(OwnEntries(opts), "localProxy") else Str("/favicon.ico"))
    && forall k :: k != "params" && k != "files" && k != "defaultName" && k != "localProxy" ==>
      Erase(Get(options, k)) == Erase(Get(OwnEntries(opts), k))
  }

  /** The containers `init` keeps in the options and in the params are new:
      each one was made by the copy that took the identities `lo` to `hi`,
      so none of the caller's containers `ids` is shared. `clone` passes an
      object with a truthy `nodeType` by reference, so nothing is claimed of
      the entries of such options or such params. */
  ghost predicate CopiedApart(opts: Value, options: seq<Entry>, params: seq<Entry>, ids: set<nat>, lo: nat, hi: nat) {
    && (!HostLike(opts) ==> FreshValues(options, lo, hi) && Apart(options, ids))
    && (!HostLike(opts) && !HostLike(ParamsOption(opts)) ==> FreshValues(params, lo, hi) && Apart(params, ids))
  }

  /** Every value of the merged options is a value of the copy or a default. */
  lemma FreshMerged(merged: seq<Entry>, own: seq<Entry>, lo: nat, hi: nat)
    requires DistinctKeys(merged) && FreshValues(own, lo, hi)
    requires forall k :: (Find(merged, k) == if k in Keys(own) then Find(own, k) else Find(Defaults(), k))
    ensures FreshValues(merged, lo, hi)
  {
    forall j, i | 0 <= j < |merged| && i in Owned(merged[j].val) ensures lo <= i < hi {
      var k := merged[j].key;
      FindAt(merged, j);
      if k in Keys(own) {
        var j' := FindIndex(own, k);
        assert own[j'].val == merged[j].val;
      }
    }
  }

  /** The params `init` keeps hold only containers of the copy, unless the
      copy of the params is an object `clone` shares. */
  lemma FreshParams(v: Value, lo: nat, hi: nat)
    requires !HostLike(v) && (v.Obj? ==> DistinctKeys(v.entries))
    requires forall i :: i in Owned(v) ==> lo <= i < hi
    ensures FreshValues(ParamsEntries(v), lo, hi)
  {
    var own := OwnEntries(v);
    OwnFresh(v, lo, hi);
    if Truthy(v) && (v.Obj? || v.Arr? || v.Node?) {
      FreshPut(own, Mark, Num(1), lo, hi);
    }
  }

  /** The containers of the stored options and params come from the copy
      `extend` made. */
  lemma ConfiguredApart(opts: Value, next: nat, merged: seq<Entry>, uuid: string)
    requires MergedFrom(merged, opts, next)
    requires forall i :: i in Ids(opts) ==> i < next
    requires ParamsOption(opts).Obj? ==> DistinctKeys(ParamsOption(opts).entries)
    requires Get(merged, "params").Obj? ==> DistinctKeys(Get(merged, "params").entries)
    ensures CopiedApart(opts, InitOptions(merged, uuid), ParamsEntries(Get(merged, "params")), Ids(opts), next, Clone(opts, next).1)
  {
    if !HostLike(opts) {
      CopyFresh(opts, next);
      FreshMerged(merged, OwnEntries(Clone(opts, next).0), next, Clone(opts, next).1);
      OptionsApart(opts, next, merged, uuid);
      ParamsApart(opts, next, merged);
    }
  }

  lemma OptionsApart(opts: Value, next: nat, merged: seq<Entry>, uuid: string)
    requires FreshValues(merged, next, Clone(opts, next).1)
    requires forall i :: i in Ids(opts) ==> i < next
    ensures FreshValues(InitOptions(merged, uuid), next, Clone(opts, next).1)
    ensures Apart(InitOptions(merged, uuid), Ids(opts))
  {
    var hi := Clone(opts, next).1;
    FreshRemove(merged, "params", next, hi);
    FreshRemove(Remove(merged, "params"), "files", next, hi);
    FreshPut(Remove(Remove(merged, "params"), "files"), "defaultName", Str(uuid), next, hi);
    CopiedApartOf(InitOptions(merged, uuid), Ids(opts), next, hi);
  }

  lemma ParamsApart(opts: Value, next: nat, merged: seq<Entry>)
    requires MergedFrom(merged, opts, next) && !HostLike(opts)
    requires FreshValues(OwnEntries(Clone(opts, next).0), next, Clone(opts, next).1)
    requires forall i :: i in Ids(opts) ==> i < next
    requires ParamsOption(opts).Obj? ==> DistinctKeys(ParamsOption(opts).entries)
    requires Get(merged, "params").Obj? ==> DistinctKeys(Get(merged, "params").entries)
    ensures !HostLike(ParamsOption(opts)) ==>
      FreshValues(ParamsEntries(Get(merged, "params")), next, Clone(opts, next).1)
      && Apart(ParamsEntries(Get(merged, "params")), Ids(opts))
  {
    var copy, hi := Clone(opts, next).0, Clone(opts, next).1;
    var own := OwnEntries(copy);
    var v := Get(merged, "params");
    ParamsRead(opts, next, merged);
    CloneShape(opts, next);
    ReadMerged(merged, copy, "params");
    ReadOfShape(copy, opts, "params");
    HostLikeOfShape(v, ParamsOption(opts));
    if !HostLike(ParamsOption(opts)) {
      forall i | i in Owned(v) ensures next <= i < hi {
        if "params" in Keys(own) {
          var j := FindIndex(own, "params");
          assert own[j].val == v;
        }
      }
      FreshParams(v, next, hi);
      CopiedApartOf(ParamsEntries(v), Ids(opts), next, hi);
    }
  }

  lemma CopiedApartOf(es: seq<Entry>, ids: set<nat>, lo: nat, hi: nat)
    requires FreshValues(es, lo, hi) && forall i :: i in ids ==> i < lo
    ensures Apart(es, ids)
  {
    forall j | 0 <= j < |es| ensures Owned(es[j].val) !! ids {
      forall i | i in Owned(es[j].val) ensures i !in ids {
      }
    }
  }

  /** The constructor's `extend(op, options)` and the option handling at the
      start of `init`; `next` is the first number the copy may use, above
      every container of the caller's options. */
  method Configure(opts: Value, time: nat, next: nat)
    returns (options: seq<Entry>, params: seq<Entry>, files: seq<NodeId>, localProxy: Value, uuid: string, next': nat)
    requires opts.Obj? ==> DistinctKeys(opts.entries)
    requires ParamsOption(opts).Obj? ==> DistinctKeys(ParamsOption(opts).entries)
    requires FileNodes(FilesOption(opts)).Some?
    requires forall i :: i in Ids(opts) ==> i < next
    ensures Configured(opts, time, options, params, files, localProxy, uuid)
    ensures CopiedApart(opts, options, params, Ids(opts), next, next')
    ensures next <= next'
  {
    var merged;
    merged, next' := Extend(Defaults(), opts, next);
    ParamsRead(opts, next, merged);
    FilesRead(opts, next, merged);
    uuid := Uuid(time);
    OptionsRead(opts, next, merged, uuid);
    ConfiguredApart(opts, next, merged, uuid);
    options := InitOptions(merged, uuid);
    params := ParamsEntries(Get(merged, "params"));
    files := FileNodes(Get(merged, "files")).value;
    localProxy := Get(options, "localProxy");
  }

  /** What one cell of `_files` remembers: the file input, the clone put in
      its place and the element it was taken from. */
  datatype FileRecord = FileRecord(input: NodeId, placeholder: NodeId, container: NodeId)

  function Placeholders(rs: seq<FileRecord>): (cs: seq<NodeId>)
    ensures |cs| == |rs| && forall k :: 0 <= k < |rs| ==> cs[k] == rs[k].placeholder
  {
    seq(|rs|, k requires 0 <= k < |rs| => rs[k].placeholder)
  }

  lemma PlaceholdersSnoc(rs: seq<FileRecord>, r: FileRecord)
    ensures Placeholders(rs + [r]) == Placeholders(rs) + [r.placeholder]
  {
  }

  /** The uuid `init` derives from the clock. */
  function Uuid(time: nat): string {
    "transfer_" + NatToString(time)
  }

  /** The file loop of `send` has moved the first `fi` of `files` out of
      `base`: the clones, numbered from `n0` and unused in `base`, stand in
      their places, disabled, and `records` says where each input came from.
      The clones are numbered from `n0` on, one per file moved. */
  ghost predicate MovedSoFar(page: Document, top: nat, base: Document, form: NodeId, files: seq<NodeId>,
                             records: seq<FileRecord>, disabled: set<NodeId>, doc: Document, fi: nat, n0: nat)
  {
    && Bookkept(page, top, base, form, files, records, disabled, fi, n0)
    && Agrees(doc, base, form, files[..fi], Placeholders(records))
  }

  /** The part of `MovedSoFar` that does not speak of the document. */
  ghost predicate Bookkept(page: Document, top: nat, base: Document, form: NodeId, files: seq<NodeId>,
                           records: seq<FileRecord>, disabled: set<NodeId>, fi: nat, n0: nat)
  {
    && fi <= |files| && |records| == fi
    && FilesReady(base, form, files) && Below(base, n0) && top <= n0 && form < n0
    && (forall f :: f in files ==> f < top && ParentOf(base, f) == ParentOf(page, f))
    && (forall k :: 0 <= k < fi ==>
          && records[k].input == files[k]
          && records[k].placeholder in disabled && ParentOf(page, files[k]) == Some(records[k].container))
    && Distinct(Placeholders(records)) && (forall c :: c in Placeholders(records) ==> n0 <= c < n0 + fi)
  }

  /** The clones so far are fresh, distinct and outside the form and the
      files, so the moved prefix is relocatable. */
  lemma BookkeptRelocatable(page: Document, top: nat, base: Document, form: NodeId, files: seq<NodeId>,
                            records: seq<FileRecord>, disabled: set<NodeId>, fi: nat, n0: nat)
    requires Bookkept(page, top, base, form, files, records, disabled, fi, n0)
    ensures Relocatable(base, form, files[..fi], Placeholders(records))
    ensures forall x :: x in Placeholders(records) ==> n0 <= x && x !in files
  {
    var cs := Placeholders(records);
    forall f | f in files[..fi] ensures f in files {
      var k :| 0 <= k < fi && files[..fi][k] == f;
      assert files[k] == f;
    }
    forall x | x in cs ensures x !in files && Unused(base, x) {
      BelowUnused(base, n0, x);
    }
  }

  /** `fEle.parentNode.insertBefore(fCloneEle, fEle)` then
      `form.appendChild(fEle)` for the input `f` and its clone `c`, after the
      inputs `F` have moved with clones `C`: the clone takes the input's place
      and the input goes to the end of the form. */
  method MoveInput(d: Document, ghost base: Document, form: NodeId, ghost F: seq<NodeId>, ghost C: seq<NodeId>,
                   f: NodeId, c: NodeId)
    returns (d': Document, p: NodeId)
    requires |F| == |C| && Relocatable(base, form, F + [f], C + [c]) && Agrees(d, base, form, F, C)
    ensures ParentOf(base, f) == Some(p)
    ensures Agrees(d', base, form, F + [f], C + [c])
  {
    RelocateOne(d, base, form, F, C, f, c);
    p := ParentOf(d, f).value;
    d' := InsertBefore(d, p, c, f);
    d' := AppendChild(d', form, f);
  }

  /** Once every file input has moved, the records are those `_files` keeps. */
  lemma BookkeptDone(page: Document, top: nat, base: Document, form: NodeId, files: seq<NodeId>,
                     records: seq<FileRecord>, disabled: set<NodeId>, n0: nat)
    requires Bookkept(page, top, base, form, files, records, disabled, |files|, n0)
    ensures files[..|files|] == files
    ensures Relocatable(base, form, files, Placeholders(records))
    ensures RecordsMatchState(page, base, files, records, disabled)
  {
    BookkeptRelocatable(page, top, base, form, files, records, disabled, |files|, n0);
    assert files[..|files|] == files;
    forall k | 0 <= k < |records| ensures ParentOf(base, files[k]) == ParentOf(page, files[k]) {
      assert files[k] in files;
    }
  }

  /** Before one turn of the file loop: the next input and the clone
      `n0 + fi` can be moved. */
  lemma MoveReady(page: Document, top: nat, base: Document, form: NodeId, files: seq<NodeId>,
                  records: seq<FileRecord>, disabled: set<NodeId>, fi: nat, n0: nat,
                  moved: seq<NodeId>, placed: seq<NodeId>, f: NodeId, c: NodeId)
    requires Bookkept(page, top, base, form, files, records, disabled, fi, n0) && fi < |files|
    requires moved == files[..fi] && placed == Placeholders(records) && f == files[fi] && c == n0 + fi
    ensures |moved| == |placed|
    ensures Relocatable(base, form, moved + [f], placed + [c])
  {
    BookkeptRelocatable(page, top, base, form, files, records, disabled, fi, n0);
    BelowUnused(base, n0, n0 + fi);
    RelocatableNext(base, form, files, Placeholders(records), fi, n0 + fi);
  }

  /** After one turn of the file loop the bookkeeping covers one more file. */
  lemma MovedGrown(page: Document, top: nat, base: Document, form: NodeId, files: seq<NodeId>,
                   records: seq<FileRecord>, disabled: set<NodeId>, doc: Document, fi: nat, n0: nat, p: NodeId,
                   moved: seq<NodeId>, placed: seq<NodeId>, f: NodeId, c: NodeId)
    requires Bookkept(page, top, base, form, files, records, disabled, fi, n0) && fi < |files|
    requires moved == files[..fi] && placed == Placeholders(records) && f == files[fi] && c == n0 + fi
    requires ParentOf(base, f) == Some(p)
    requires Agrees(doc, base, form, moved + [f], placed + [c])
    ensures MovedSoFar(page, top, base, form, files, records + [FileRecord(f, c, p)], disabled + {c}, doc, fi + 1, n0)
  {
    var r := FileRecord(f, c, p);
    PlaceholdersSnoc(records, r);
    assert files[..fi + 1] == moved + [f];
    DistinctSnoc(placed, c);
    assert f in files;
  }

  /** The file loop of `send`, from the document `base` it starts on: for
      each file input in turn, the clone numbered `n0 + fi` is put in its
      place and disabled, the input moves to the end of the form, and the
      record of the move is appended. */
  method RelocateFiles(ghost page: Document, ghost top: nat, ghost base: Document, form: NodeId, files: seq<NodeId>,
                       disabled: set<NodeId>, d0: Document, n0: nat)
    returns (doc: Document, records: seq<FileRecord>, disabled': set<NodeId>)
    requires d0 == base && Bookkept(page, top, base, form, files, [], disabled, 0, n0)
    requires Agrees(d0, base, form, files[..0], Placeholders([]))
    ensures MovedSoFar(page, top, base, form, files, records, disabled', doc, |files|, n0)
  {
    doc, records, disabled' := d0, [], disabled;
    var fi := 0;
    while fi < |files|
      invariant fi <= |files| && MovedSoFar(page, top, base, form, files, records, disabled', doc, fi, n0)
    {
      doc, records, disabled' := MoveNext(page, top, base, form, files, records, disabled', doc, fi, n0);
      fi := fi + 1;
    }
  }

  /** One turn of the file loop of `send`. */
  method MoveNext(ghost page: Document, ghost top: nat, ghost base: Document, form: NodeId, files: seq<NodeId>,
                  records: seq<FileRecord>, disabled: set<NodeId>, doc: Document, fi: nat, n0: nat)
    returns (doc': Document, records': seq<FileRecord>, disabled': set<NodeId>)
    requires fi < |files| && MovedSoFar(page, top, base, form, files, records, disabled, doc, fi, n0)
    ensures MovedSoFar(page, top, base, form, files, records', disabled', doc', fi + 1, n0)
  {
    var f, c := files[fi], n0 + fi;
    ghost var moved, placed := files[..fi], Placeholders(records);
    MoveReady(page, top, base, form, files, records, disabled, fi, n0, moved, placed, f, c);
    var p;
    doc', p := MoveInput(doc, base, form, moved, placed, f, c);
    MovedGrown(page, top, base, form, files, records, disabled, doc', fi, n0, p, moved, placed, f, c);
    records' := records + [FileRecord(f, c, p)];
    disabled' := disabled + {c};
  }

  /** The file loop of `send` as a whole: every file input is at the end of
      the form, in order, with its clone numbered from `n0` in its place, and
      the records say where each one came from. */
  method PlaceFiles(ghost page: Document, ghost top: nat, form: NodeId, files: seq<NodeId>,
                    disabled: set<NodeId>, base: Document, n0: nat)
    returns (doc: Document, records: seq<FileRecord>, disabled': set<NodeId>)
    requires FilesReady(base, form, files) && Below(base, n0) && top <= n0 && form < n0
    requires forall f :: f in files ==> f < top && ParentOf(base, f) == ParentOf(page, f)
    ensures Relocatable(base, form, files, Placeholders(records)) && RecordsMatchState(page, base, files, records, disabled')
    ensures Agrees(doc, base, form, files, Placeholders(records))
  {
    AgreesEmpty(base, base, form);
    assert files[..0] == [];
    doc, records, disabled' := RelocateFiles(page, top, base, form, files, disabled, base, n0);
    BookkeptDone(page, top, base, form, files, records, disabled', n0);
  }

  /** The file inputs are the ones `_files` lists, taken from where they
      stood in the page, and each clone is disabled. */
  ghost predicate RecordsMatchState(page: Document, base: Document, files: seq<NodeId>, records: seq<FileRecord>, disabled: set<NodeId>) {
    && |records| == |files|
    && forall k :: 0 <= k < |records| ==>
        records[k].input == files[k] && ParentOf(base, files[k]) == Some(records[k].container)
        && ParentOf(page, files[k]) == Some(records[k].container) && records[k].placeholder in disabled
  }

  /** Between `send` and `clean`: `base` is the page with the frame, the form
      and the field inputs; the posted fields are those of the params; the
      encoding is multipart exactly when there are files; and the document is
      `base` with the file inputs moved to the end of the form and their
      clones in their places. */
  ghost predicate InFlightState(page: Document, top: nat, base: Document, doc: Document, body: NodeId, frame: NodeId, form: NodeId,
                                inputs: seq<NodeId>, posted: seq<Field>, params: seq<Entry>, files: seq<NodeId>,
                                encoding: string, records: seq<FileRecord>, disabled: set<NodeId>) {
    && Staged(page, top, base, body, frame, form, inputs)
    && posted == FormFields(params) && |inputs| == |posted|
    && encoding == (if files == [] then UrlEncoded else Multipart)
    && RecordsMatchState(page, base, files, records, disabled)
    && Relocatable(base, form, files, Placeholders(records))
    && Agrees(doc, base, form, files, Placeholders(records))
  }

  /** While in flight the form holds the field inputs followed by the file
      inputs, and every file input's old place holds its clone. */
  lemma InFlightForm(page: Document, top: nat, base: Document, doc: Document, body: NodeId, frame: NodeId, form: NodeId,
                     inputs: seq<NodeId>, posted: seq<Field>, params: seq<Entry>, files: seq<NodeId>,
                     encoding: string, records: seq<FileRecord>, disabled: set<NodeId>)
    requires InFlightState(page, top, base, doc, body, frame, form, inputs, posted, params, files, encoding, records, disabled)
    ensures Kids(doc, form) == inputs + files
    ensures forall k :: 0 <= k < |files| ==> ParentOf(doc, files[k]) == Some(form)
    ensures forall k :: 0 <= k < |records| ==>
      ParentOf(doc, records[k].placeholder) == Some(records[k].container) && records[k].placeholder in disabled
  {
    var cs := Placeholders(records);
    assert Kids(doc, form) == Kids(base, form) + files;
    forall k | 0 <= k < |records| ensures ParentOf(doc, records[k].placeholder) == Some(records[k].container) {
      var c := cs[k];
      assert c in cs && c !in files && c !in cs[..k];
      IndexOfUnique(cs, c, k);
    }
  }

  // ---------------------------------------------------------------------
  // Putting the page back

  /** `parent.insertBefore(fEle, clone)` and `parent.removeChild(clone)` for
      the first record still to undo: the input is back in its place and the
      clone is gone. */
  method PutBack(d: Document, ghost base: Document, form: NodeId, ghost F: seq<NodeId>, ghost C: seq<NodeId>,
                 f: NodeId, c: NodeId, P: NodeId)
    returns (d': Document)
    requires |F| == |C| && ParentOf(base, f) == Some(P)
    requires Relocatable(base, form, [f] + F, [c] + C)
    requires Agrees(d, base, form, [f] + F, [c] + C)
    ensures Relocatable(base, form, F, C) && Agrees(d', base, form, F, C)
  {
    RestoreOne(d, base, form, f, F, c, C);
    RelocatableSuffix(base, form, [f] + F, [c] + C);
    assert ([f] + F)[1..] == F && ([c] + C)[1..] == C;
    d' := InsertBefore(d, P, f, c);
    d' := RemoveChild(d', P, c);
  }

  /** The records from position `i` on, with the first of them split off. */
  lemma Uncons(d: Document, base: Document, form: NodeId, files: seq<NodeId>, cs: seq<NodeId>, i: nat, f: NodeId, c: NodeId)
    requires |files| == |cs| && i < |files| && f == files[i] && c == cs[i]
    requires Relocatable(base, form, files[i..], cs[i..]) && Agrees(d, base, form, files[i..], cs[i..])
    ensures |files[i + 1..]| == |cs[i + 1..]|
    ensures Relocatable(base, form, [f] + files[i + 1..], [c] + cs[i + 1..])
    ensures Agrees(d, base, form, [f] + files[i + 1..], [c] + cs[i + 1..])
  {
    assert files[i..] == [f] + files[i + 1..];
    assert cs[i..] == [c] + cs[i + 1..];
  }

  /** The loop of `clean` over `_files`: every record is undone in order. */
  method RestoreFiles(d0: Document, ghost base: Document, form: NodeId, records: seq<FileRecord>, ghost files: seq<NodeId>)
    returns (d: Document)
    requires |records| == |files|
    requires forall k :: 0 <= k < |records| ==> records[k].input == files[k] && ParentOf(base, files[k]) == Some(records[k].container)
    requires Relocatable(base, form, files, Placeholders(records)) && Agrees(d0, base, form, files, Placeholders(records))
    ensures Agrees(d, base, form, [], [])
  {
    d := d0;
    ghost var cs := Placeholders(records);
    assert files[0..] == files && cs[0..] == cs;
    var i := 0;
    while i < |records|
      invariant i <= |records|
      invariant Relocatable(base, form, files[i..], cs[i..]) && Agrees(d, base, form, files[i..], cs[i..])
    {
      Uncons(d, base, form, files, cs, i, records[i].input, records[i].placeholder);
      d := PutBack(d, base, form, files[i + 1..], cs[i + 1..], records[i].input, records[i].placeholder, records[i].container);
      i := i + 1;
    }
    assert files[i..] == [] && cs[i..] == [];
  }

  /** The frame hangs from the body and takes no part in the relocation, so
      removing it leaves every file input's parent as it was. */
  lemma FrameApart(page: Document, top: nat, base: Document, body: NodeId, frame: NodeId, form: NodeId, inputs: seq<NodeId>,
                   files: seq<NodeId>, records: seq<FileRecord>, disabled: set<NodeId>)
    requires Staged(page, top, base, body, frame, form, inputs)
    requires RecordsMatchState(page, base, files, records, disabled)
    requires Relocatable(base, form, files, Placeholders(records))
    ensures body != form && frame in Kids(base, body)
    ensures frame !in files && frame !in Placeholders(records)
    ensures forall k :: 0 <= k < |records| ==>
      records[k].input == files[k] && ParentOf(RemoveChild(base, body, frame), files[k]) == Some(records[k].container)
  {
    Unframe(page, top, base, body, frame, form, inputs);
    RemoveChildEffect(base, body, frame);
    assert ParentOf(base, frame) == Some(body);
    forall k | 0 <= k < |files| ensures files[k] != frame {
      assert files[k] in page.parent;
    }
  }

  /** With the file inputs back and the frame gone, the document is the page
      with the form last in the body; removing the form gives the page back. */
  lemma CleanTail(page: Document, top: nat, base: Document, d: Document, body: NodeId, frame: NodeId, form: NodeId, inputs: seq<NodeId>)
    requires Staged(page, top, base, body, frame, form, inputs)
    requires frame in Kids(base, body) && Agrees(d, RemoveChild(base, body, frame), form, [], [])
    ensures form in Kids(d, body)
    ensures Restored(page, RemoveChild(d, body, form), form, inputs)
  {
    AgreesEmpty(d, RemoveChild(base, body, frame), form);
    Unframe(page, top, base, body, frame, form, inputs);
    Unmount(page, top, d, body, form, inputs);
  }

  /** `clean`: the frame is removed from the body, every file input goes back
      where it was in place of its clone, and the form is removed. The page
      is as before `init`, and only the detached form keeps the field inputs. */
  method Unpost(ghost page: Document, ghost top: nat, ghost base: Document, doc: Document, body: NodeId, frame: NodeId, form: NodeId,
                ghost inputs: seq<NodeId>, ghost files: seq<NodeId>, records: seq<FileRecord>, ghost disabled: set<NodeId>)
    returns (d: Document)
    requires Staged(page, top, base, body, frame, form, inputs)
    requires RecordsMatchState(page, base, files, records, disabled)
    requires Relocatable(base, form, files, Placeholders(records)) && Agrees(doc, base, form, files, Placeholders(records))
    ensures Restored(page, d, form, inputs)
  {
    FrameApart(page, top, base, body, frame, form, inputs, files, records, disabled);
    RemoveOther(doc, base, form, files, Placeholders(records), body, frame);
    d := RemoveChild(doc, body, frame);
    d := RestoreFiles(d, RemoveChild(base, body, frame), form, records, files);
    CleanTail(page, top, base, d, body, frame, form, inputs);
    d := RemoveChild(d, body, form);
  }

  /** One transfer: the options after `init`, the params and files it took
      out of them, the relay's session and the document it works on. Nodes
      and containers are numbered; `next` is the first number not yet used. */
  class Transfer {
    const url: string
    const uuid: string
    const pageHost: string
    const localProxy: Value
    const body: NodeId
    const frame: NodeId
    const form: NodeId

    var options: seq<Entry>
    var params: seq<Entry>
    var files: seq<NodeId>

    var state: int
    var cleaned: bool
    var calls: seq<string>
    var navigations: seq<Value>

    var doc: Document
    var next: nat
    /** `form.encoding`, whether `form.submit()` has run, the inputs
        `genInput` created, the fields in the order they were added, the
        `name` and `value` `genInput` gave each input, and `_files`. */
    var encoding: string
    var submitted: bool
    var inputs: seq<NodeId>
    var posted: seq<Field>
    var fieldOf: map<NodeId, Field>
    var records: seq<FileRecord>
    /** The clones that were made disabled. */
    var disabled: set<NodeId>

    /** The page before `init`, the first number `init` could use, and the
        document as `send` found it once the fields were in place. */
    ghost const page: Document
    ghost const top: nat
    ghost var base: Document

    function Snapshot(): Relay.Session
      reads this`state, this`cleaned, this`calls, this`navigations
    {
      Relay.Session(state, cleaned, calls, navigations)
    }

    function Cfg(): Relay.Config {
      Relay.Config(localProxy, uuid, pageHost)
    }

    /** The form is still being filled in: the document is the page with the
        frame and the form appended, and `inputs` in the form. */
    ghost predicate Building()
      reads this`doc, this`inputs, this`next
    {
      Staged(page, top, doc, body, frame, form, inputs) && Valid(doc) && Below(doc, next) && frame < next && form < next
    }

    /** Before `send`: frame and form are mounted and nothing else changed. */
    ghost predicate Mounted()
      reads this`doc, this`inputs, this`next, this`posted, this`records, this`encoding, this`submitted
    {
      && Building()
      && inputs == [] && posted == [] && records == [] && encoding == UrlEncoded && !submitted
    }

    /** Between `send` and `clean`: the form has been submitted with the
        fields and the file inputs in it. */
    ghost predicate InFlight()
      reads this`submitted, this`base, this`doc, this`inputs, this`posted, this`params, this`files, this`encoding,
             this`records, this`disabled, this`fieldOf
    {
      && submitted
      && InFlightState(page, top, base, doc, body, frame, form, inputs, posted, params, files, encoding, records, disabled)
      && Posts(inputs, posted, fieldOf)
    }

    /** Everything but the relay's own bookkeeping. */
    ghost predicate Core()
      reads this`files, this`options, this`params, this`state, this`cleaned, this`doc, this`inputs, this`next,
             this`posted, this`records, this`encoding, this`submitted, this`base, this`disabled, this`fieldOf
    {
      && Fresh(page, top, body, frame, form)
      && Distinct(files) && (forall f :: f in files ==> ParentOf(page, f).Some?)
      && DistinctKeys(options) && DistinctKeys(params)
      && (state == 1 && !cleaned ==> Mounted())
      && (state != 1 && !cleaned ==> InFlight())
      && (cleaned ==> Restored(page, doc, form, inputs) && records == [])
    }

    ghost predicate Inv()
      reads this`files, this`options, this`params, this`state, this`cleaned, this`doc, this`inputs, this`next,
             this`posted, this`records, this`encoding, this`submitted, this`base, this`disabled, this`fieldOf,
             this`calls, this`navigations
    {
      Relay.SessionInv(Snapshot()) && Core()
    }

    /** The rest of `init` once the options are handled: the frame named
        with the uuid and the form are appended to the body, the form posts
        url-encoded, and the state is 1. */
    constructor (url: string, options: seq<Entry>, params: seq<Entry>, files: seq<NodeId>, localProxy: Value, uuid: string,
                 page: Document, body: NodeId, pageHost: string, next: nat)
      requires DistinctKeys(options) && DistinctKeys(params)
      requires Distinct(files) && forall f :: f in files ==> ParentOf(page, f).Some?
      requires Valid(page) && Below(page, next) && body < next
      ensures Inv() && Snapshot() == Relay.Initial()
      ensures this.url == url && this.options == options && this.params == params && this.files == files
      ensures this.localProxy == localProxy && this.uuid == uuid
      ensures this.pageHost == pageHost && this.body == body && this.page == page && top == next
      ensures frame == next && form == next + 1 && this.next == next + 2
      ensures Staged(page, next, doc, body, frame, form, []) && Valid(doc)
      ensures encoding == UrlEncoded && !submitted && inputs == [] && posted == [] && fieldOf == map[] && records == []
    {
      this.url := url;
      this.uuid := uuid;
      this.pageHost := pageHost;
      this.body := body;
      this.page := page;
      this.top := next;
      this.options := options;
      this.params := params;
      this.files := files;
      this.localProxy := localProxy;

      frame := next;
      form := next + 1;
      var d := Mount(page, next, body, next, next + 1);
      doc := d;
      this.next := next + 2;

      encoding := UrlEncoded;
      submitted := false;
      inputs := [];
      posted := [];
      fieldOf := map[];
      records := [];
      disabled := {};
      state := 1;
      cleaned := false;
      calls := [];
      navigations := [];
      base := page;
    }

    /** `form.appendChild(genInput(name, value))`: a new input posting
        `value` under `name` goes last in the form. */
    method AddInput(name: string, value: Value)
      requires Building()
      modifies this`doc, this`next, this`inputs, this`posted, this`fieldOf
      ensures Building()
      ensures inputs == old(inputs) + [old(next)] && posted == old(posted) + [Field(name, value)] && next == old(next) + 1
      ensures fieldOf == old(fieldOf)[old(next) := Field(name, value)]
      ensures Posts(old(inputs), old(posted), old(fieldOf)) ==> Posts(inputs, posted, fieldOf)
    {
      assert forall n :: n in inputs ==> ParentOf(doc, n) == Some(form);
      StageInput(page, top, doc, body, frame, form, inputs, next);
      doc := AppendChild(doc, form, next);
      inputs := inputs + [next];
      posted := posted + [Field(name, value)];
      fieldOf := fieldOf[next := Field(name, value)];
      next := next + 1;
    }

    /** One turn of the first loop of `send`: the inputs for one own entry of
        the params, one per element in order when its value is an array. */
    method AddEntry(e: Entry)
      requires Building() && Posts(inputs, posted, fieldOf)
      modifies this`doc, this`next, this`inputs, this`posted, this`fieldOf
      ensures Building() && Posts(inputs, posted, fieldOf)
      ensures posted == old(posted) + Expand(e)
      ensures inputs == old(inputs) + Span(old(next), |Expand(e)|) && next == old(next) + |Expand(e)|
    {
      if IsArray(e.val) {
        var i := 0;
        while i < |e.val.items|
          invariant 0 <= i <= |e.val.items| == |Expand(e)|
          invariant Building() && Posts(inputs, posted, fieldOf)
          invariant posted == old(posted) + Expand(e)[..i]
          invariant inputs == old(inputs) + Span(old(next), i) && next == old(next) + i
        {
          AddInput(e.key + "[]", e.val.items[i]);
          assert Expand(e)[..i + 1] == Expand(e)[..i] + [Field(e.key + "[]", e.val.items[i])];
          SpanAppend(old(next), i, 1);
          i := i + 1;
        }
        assert Expand(e)[..i] == Expand(e);
      } else {
        AddInput(e.key, e.val);
        assert Span(old(next), 1) == [old(next)];
      }
    }

    /** The first loop of `send`: the fields of every own entry of the params,
        in order. */
    method AddFields()
      requires Building() && inputs == [] && posted == []
      modifies this`doc, this`next, this`inputs, this`posted, this`fieldOf
      ensures Building() && Posts(inputs, posted, fieldOf)
      ensures posted == FormFields(params)
      ensures inputs == Span(old(next), |posted|) && next == old(next) + |posted|
    {
      var j := 0;
      while j < |params|
        invariant 0 <= j <= |params|
        invariant Building() && Posts(inputs, posted, fieldOf)
        invariant posted == FormFields(params[..j])
        invariant inputs == Span(old(next), |posted|) && next == old(next) + |posted|
      {
        SpanAppend(old(next), |posted|, |Expand(params[j])|);
        AddEntry(params[j]);
        FormFieldsAppend(params[..j], params[j]);
        assert params[..j + 1] == params[..j] + [params[j]];
        j := j + 1;
      }
      assert params[..j] == params;
    }

    /** The second loop of `send`: each file input gets a disabled clone in
        its place and moves to the end of the form; `_files` records the
        move. The document before the loop becomes `base`. */
    method MoveFiles()
      requires Building() && posted == FormFields(params) && |inputs| == |posted| && encoding == UrlEncoded
      requires Distinct(files) && forall f :: f in files ==> ParentOf(page, f).Some?
      modifies this`doc, this`next, this`records, this`disabled, this`base, this`encoding
      ensures base == old(doc) && next == old(next) + |files|
      ensures InFlightState(page, top, base, doc, body, frame, form, inputs, posted, params, files, encoding, records, disabled)
    {
      base := doc;
      FilesReadyInStage(page, top, doc, body, frame, form, inputs, files);
      if |files| > 0 {
        encoding := Multipart;
      }
      var d, rs, ds := PlaceFiles(page, top, form, files, disabled, doc, next);
      doc := d;
      records := rs;
      disabled := ds;
      next := next + |files|;
    }

    /** `send`: the fields and the file inputs go into the form, the form is
        submitted into the frame and the state becomes 2. */
    method Send()
      requires Inv() && state == 1 && !cleaned
      modifies this
      ensures Inv() && InFlight()
      ensures Snapshot() == Relay.Submitted(old(Snapshot()))
      ensures Kids(doc, form) == inputs + files && Posts(inputs, FormFields(params), fieldOf)
      ensures options == old(options) && params == old(params) && files == old(files)
    {
      AddFields();
      MoveFiles();
      InFlightForm(page, top, base, doc, body, frame, form, inputs, posted, params, files, encoding, records, disabled);
      Submit();
    }

    /** `clean`, with the handlers detached. */
    method Clean()
      requires InFlight()
      modifies this`doc, this`records, this`cleaned
      ensures cleaned && records == [] && Restored(page, doc, form, inputs)
    {
      var d := Unpost(page, top, base, doc, body, frame, form, inputs, files, records, disabled);
      doc := d;
      records := [];
      cleaned := true;
    }

    /** `onrequest` on one load of the frame. Once `clean` has run the
        handlers are detached and a load does nothing. */
    method OnSignal(sig: Relay.Signal)
      requires Inv()
      modifies this`state, this`cleaned, this`calls, this`navigations, this`doc, this`records
      ensures Inv() && Snapshot() == Relay.Next(old(Snapshot()), sig, Cfg())
      ensures Relay.Decide(old(Snapshot()), sig, Cfg()) == Relay.Finish ==> Restored(page, doc, form, inputs) && records == []
      ensures Relay.Decide(old(Snapshot()), sig, Cfg()) != Relay.Finish ==> doc == old(doc) && records == old(records)
    {
      if cleaned || sig.href == Some(Relay.Blank) {
        return;
      }
      if state == 3 {
        if !Relay.IsLocal(sig.host, pageHost) {
          Reroute();
        } else {
          if Relay.NotReady(sig.readyState) {
            return;
          }
          Finish(sig.name);
        }
      }
      if state == 2 {
        Advance();
      }
    }

    /** `frame.contentWindow.location = localProxy` while the frame is still
        at the remote origin. */
    method Reroute()
      requires Inv() && state == 3 && !cleaned
      modifies this`navigations
      ensures Inv() && navigations == old(navigations) + [localProxy]
    {
      navigations := navigations + [localProxy];
    }

    /** The first load after `send`: the frame is sent to the proxy page and
        the state becomes 3. */
    method Advance()
      requires Inv() && state == 2 && !cleaned
      modifies this`navigations, this`state
      ensures Inv() && state == 3 && navigations == old(navigations) + [localProxy]
    {
      navigations := navigations + [localProxy];
      state := 3;
    }

    /** `complete()` hands the frame's name to the callback, then `clean()`. */
    method Finish(name: string)
      requires Inv() && state == 3 && !cleaned
      modifies this`calls, this`doc, this`records, this`cleaned
      ensures Inv() && cleaned && calls == old(calls) + [Relay.Payload(name, uuid)]
      ensures Restored(page, doc, form, inputs)
    {
      calls := calls + [Relay.Payload(name, uuid)];
      Clean();
    }

    /** `form.submit()` into the frame, then `this.state = 2`. */
    method Submit()
      requires Relay.SessionInv(Snapshot()) && state == 1 && !cleaned
      requires Fresh(page, top, body, frame, form) && Distinct(files) && (forall f :: f in files ==> ParentOf(page, f).Some?)
      requires DistinctKeys(options) && DistinctKeys(params)
      requires InFlightState(page, top, base, doc, body, frame, form, inputs, posted, params, files, encoding, records, disabled)
      requires Posts(inputs, posted, fieldOf)
      modifies this`submitted, this`state
      ensures Inv() && InFlight()
      ensures Snapshot() == Relay.Submitted(old(Snapshot()))
    {
      submitted := true;
      state := 2;
    }
  }

  /** `new Transfer(url, callback, options)`: the options are merged onto the
      defaults and handled, then `init` mounts frame and form. The copy of the
      options takes the first free numbers, the frame and the form the next. */
  method NewTransfer(url: string, opts: Value, time: nat, page: Document, body: NodeId, pageHost: string, next: nat)
    returns (t: Transfer)
    requires opts.Obj? ==> DistinctKeys(opts.entries)
    requires ParamsOption(opts).Obj? ==> DistinctKeys(ParamsOption(opts).entries)
    requires FileNodes(FilesOption(opts)).Some?
    requires Distinct(FileNodes(FilesOption(opts)).value)
    requires forall f :: f in FileNodes(FilesOption(opts)).value ==> ParentOf(page, f).Some?
    requires Valid(page) && Below(page, next) && body < next
    requires forall i :: i in Ids(opts) ==> i < next
    ensures fresh(t) && t.Inv() && t.Snapshot() == Relay.Initial()
    ensures Configured(opts, time, t.options, t.params, t.files, t.localProxy, t.uuid)
    ensures CopiedApart(opts, t.options, t.params, Ids(opts), next, t.top)
    ensures t.url == url && t.pageHost == pageHost && t.body == body && t.page == page
    ensures next <= t.top == t.frame && t.form == t.frame + 1
    ensures Staged(page, t.top, t.doc, body, t.frame, t.form, []) && Valid(t.doc)
    ensures t.encoding == UrlEncoded && !t.submitted && t.inputs == [] && t.posted == [] && t.records == []
  {
    var options, params, files, localProxy, uuid, next' := Configure(opts, time, next);
    t := new Transfer(url, options, params, files, localProxy, uuid, page, body, pageHost, next');
  }
}
