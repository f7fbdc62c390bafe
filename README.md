# windowname.js relay, modelled in Dafny

windowname.js posts data to another origin without reloading the page and
reads the answer back through `window.name`. A `Transfer` object does this in
four steps:

1. `init` mounts a hidden `iframe`, named with a timestamp uuid, and a
   hidden `form` that targets it. It takes `params` and `files` out of the
   options merged onto the defaults, and it adds the mark `windowname = 1`
   to the params.
2. `send` fills the form. Each own key of the params becomes one input, or
   one `key[]` input per element when the value is an array. Each file
   input is moved into the form, and a disabled clone keeps its place.
   Then the form is submitted into the frame.
3. The frame's load handler `onrequest` is a small state machine.
   - The first load, from the remote page, sends the frame to the local
     proxy page.
   - Loads that still report a foreign origin send it there again.
   - Once the frame is back at the page's own origin and ready, `complete`
     hands `frame.contentWindow.name` to the callback. The error answer
     `{"error": 1}` is handed over instead when the name is still the uuid.
4. `clean` puts every file input back in place of its clone and removes the
   frame and the form.

The helpers `clone` (a deep copy), `extend` (a merge of a copy onto a
target), `isArray` and `isObject` serve the option handling.

The modules follow that structure:

- **Values**: JavaScript values with an identity on every array and plain
  object. Objects are ordered entry lists. This module holds `clone` as a
  recursive function and `extend` as a method with a loop.
- **Dom**: the document as ordered child lists plus parent links, with
  `appendChild`, `insertBefore` and `removeChild`. A node that is moved is
  first detached from its old parent.
- **Relocation**: `Agrees`, a closed-form description of the document while
  the file inputs sit in the form, and one step of the move and of the
  restore, proved against it.
- **Form**: the params after the mark is added, and the ordered list of
  posted fields.
- **Relay**: `onrequest` as a pure transition function on a session, with
  `isLocal`, the ready-state test and the payload of `complete`.
- **WindowName**: the `Transfer` class. Its constructor mounts frame and
  form, and its methods `Send`, `OnSignal` and `Clean` update the document,
  the records of `_files` and the relay session in place. `NewTransfer`
  and `Configure` model the option handling of the constructor and `init`.

The clock, the page's host, the frame's observations at each load and the
name the remote page leaves are parameters. The time becomes the uuid
`transfer_<time>`. Node and container identities are numbers drawn from a
counter `next`.

The header comment's example posts `{'key': 'happy'}`. The code posts the
mark as well, so the model posts `key=happy` followed by `windowname=1`
(`Form.HappyExample`).

## Model

| member | source | states |
|---|---|---|
| Values.Put | windowname.js:259 | after `o[k] = v`, reading `k` gives `v` and every other key reads as before; an existing key keeps its place and a new key goes last |
| Values.Remove | windowname.js:61 | after `delete o[k]`, `k` is absent, the other keys read as before and no key is added |
| Values.NatToString | windowname.js:67 | the decimal numeral of the time is a non-empty string of digits, longer than one digit exactly from 10 on |
| Values.NatToStringInjective | windowname.js:67 | different times give different numerals, hence different uuids |
| Values.IsArray | windowname.js:250-252 | `isArray`: the value is an array; CloneIsDeepCopy and ExpandMembers pin down what an array is copied and posted as |
| Values.IsObject | windowname.js:247-249 | `isObject`: a plain object whose `nodeType` is not truthy, so a DOM node or other host-like value is not one; CloneIsDeepCopy shows such a value comes back by reference |
| Values.Clone | windowname.js:264-285 | `clone(o)`: arrays and plain objects rebuilt member by member with new container identities drawn from `next` on, any other value returned as is; its ensures says the identities used only grow, and CloneShape, CloneFresh and CloneIsDeepCopy pin the result down |
| Values.CloneShape | windowname.js:264-285 | `clone(v)` is structurally equal to `v` once container identities are ignored |
| Values.CloneFresh | windowname.js:264-285 | every array and plain object of the copy has a new identity, taken from the range the copy consumed |
| Values.CloneIsDeepCopy | windowname.js:264-285 | the copy is structurally equal to the input and shares none of its containers; an array or plain object is rebuilt under a new identity; a primitive, a host object or an object with a truthy `nodeType` comes back unchanged |
| Values.ReadOfShape | windowname.js:33 | reading one option through the copy that `extend` stores gives the caller's value up to container identities |
| Values.MergeStep | windowname.js:257-261 | one assignment of `extend`'s loop keeps the loop invariant: keys distinct, copied keys shadow the target's keys, the target's keys stay first in their order, and no foreign key appears |
| Values.Extend | windowname.js:253-263 | `extend(target, source)`: every own key of `clone(source)` reads its copied value; every other key reads the target's value; the target's keys keep their order at the front; the key set is the union; a source without own keys (such as `undefined`) leaves the target unchanged |
| Dom.AppendChild | windowname.js:77 | `p.appendChild(n)`, also at windowname.js:88 and :230: `n` is first taken out of any old parent, then placed last under `p`; AppendUnusedValid and AppendMovedEffect pin down its effect on every list and parent link |
| Dom.InsertBefore | windowname.js:229 | `p.insertBefore(n, ref)`, also at windowname.js:143: `n` is taken out of any old parent and placed just before `ref`, which must then be a child of `p`; InsertDetachedEffect, InsertMovedEffect, InsertThenRemove and ReplaceEffect pin it down |
| Dom.RemoveChild | windowname.js:137 | `p.removeChild(n)`, also at windowname.js:144 and :148, for `n` a child of `p`: `n` leaves the list of `p` and has no parent; RemoveChildValid and RemoveAtEffect pin it down |
| Dom.AppendUnusedValid | windowname.js:77 | appending a node that is not yet in the document keeps the document well formed, puts the node last among the parent's children and changes nothing else |
| Dom.RemoveChildValid | windowname.js:137 | `removeChild` keeps the document well formed, drops the child from its parent's list, detaches it and changes nothing else |
| Dom.AppendMovedEffect | windowname.js:230 | `appendChild(n)` of a node attached elsewhere takes it out of its old parent at its position, adds it last to the new parent, points its parent link there and changes no other list or link |
| Dom.InsertMovedEffect | windowname.js:143 | `insertBefore(n, ref)` of a node attached elsewhere takes it out of its old parent and places it immediately before `ref`, every other list unchanged |
| Dom.InsertDetachedEffect | windowname.js:229 | `insertBefore(n, ref)` of a node with no parent places it immediately before the first occurrence of `ref` and makes `p` its parent, every other list and parent unchanged |
| Dom.RemoveAtEffect | windowname.js:144 | `removeChild(n)` deletes `n` at its position in the parent, clears its parent link and changes nothing else |
| Dom.InsertThenRemove | windowname.js:143-144 | inserting a node before the one at position `i` and then removing that one replaces it in place |
| Dom.ReplaceEffect | windowname.js:143-144 | `insertBefore(fEle, clone)` then `removeChild(clone)` puts the input exactly where the clone was, detaches the clone and takes the input out of the form |
| Relocation.AgreesEmpty | windowname.js:138-148 | with no file moved, `Agrees` is equality of every child list and every parent link |
| Relocation.RelocateOne | windowname.js:224-230 | when the first files have moved, moving the next one leaves its clone in its place and appends it to the form, and the document again agrees with the closed form, one file further on |
| Relocation.RestoreOne | windowname.js:141-144 | putting the first moved file back before its clone and removing the clone gives the closed form for the remaining files |
| Relocation.RelocatableNext | windowname.js:223-231 | a new unused clone for the next file keeps the relocation precondition over the longer prefix |
| Relocation.RemoveOther | windowname.js:137 | removing a node that takes no part in the relocation, such as the frame, commutes with the closed form |
| Form.ParamsEntries | windowname.js:59-60 | the params or a new object, then the mark `windowname = 1`: keys stay distinct; the mark reads 1 when params are falsy, an object, an array or a host object; every other key reads as in the caller's params |
| Form.ParamsOfShape | windowname.js:59-60 | the params read through the copy of the options give the caller's entries up to container identities |
| Form.Expand | windowname.js:199-207 | the inputs `send` makes for one own key: one `key[]` field per array element, in order, or one `key` field; ExpandMembers and ArrayPosted pin it down |
| Form.FormFields | windowname.js:197-210 | the fields of the first loop of `send`: the expansions of the own keys, in key order; FormFieldsAppend, FieldsFromEntries and ArrayPosted pin it down, and Transfer.AddFields is proved against it |
| Form.FormFieldsAppend | windowname.js:197-210 | the fields of one more own key are appended after those of the keys before it |
| Form.FieldsFromEntries | windowname.js:197-210 | a field is posted if and only if it comes from one of the own entries |
| Form.ExpandMembers | windowname.js:199-207 | an array value posts its elements under `key[]`, any other value posts itself under `key` |
| Form.ArrayPosted | windowname.js:197-210 | when the keys are distinct and no other key is itself `k[]`, among all posted fields of the params those named `k[]` are the elements of the array under `k`, one per element, in the array's order |
| Form.MarkPostedOnce | windowname.js:59-60 | whenever the params can hold the mark, exactly one field carries the name `windowname`, and it posts 1 |
| Form.MarkLostOnPrimitive | windowname.js:59-60 | a truthy primitive as params silently loses the mark: no field carries the name `windowname` |
| Form.HappyExample | windowname.js:18 | `params: {key: 'happy'}` posts `key=happy` and then `windowname=1` |
| Form.TagsExample | windowname.js:197-210 | an array value `['a', 'b']` posts `tags[]=a`, `tags[]=b`, then the mark |
| Relay.IsLocal | windowname.js:124-133 | `isLocal`: the frame's host can be read and equals the page's host, an unreadable (foreign) host counting as not local; ForeignWaits and Completes pin down what each answer does |
| Relay.NotReady | windowname.js:173 | the early `return` on a `readyState` that is set and is not `complete` in any letter case; LowerIsComplete, UpperCaseComplete and NotReadyWaits pin it down |
| Relay.Payload | windowname.js:117-122 | the string `complete` hands the callback: the frame's name, or `{"error": 1}` when the name is still the uuid; PayloadNeverDefault pins it down |
| Relay.Decide | windowname.js:160-185 | the branch one load takes in `onrequest`: nothing, navigate back to the proxy, advance to state 3, or finish; BlankIgnored, CleanedIgnores, CreatedIgnores, SubmittedAdvances, ForeignWaits, NotReadyWaits and Completes pin down each branch |
| Relay.Next | windowname.js:160-185 | the session after one load; NoRegression, CallOnlyOnFinish and NextPreservesInv pin it down, RunPreservesInv and RunMonotone extend them to any run, and Transfer.OnSignal is proved against it |
| Relay.LowerIsComplete | windowname.js:173 | `readyState.toLowerCase() == "complete"` holds if and only if the state has eight letters, each the lower- or upper-case letter of `complete` |
| Relay.LowerIdempotent | windowname.js:173 | lowering a lowered state changes nothing |
| Relay.Initial | windowname.js:98 | `init` leaves state 1, no callback and no navigation; InitialInv proves it meets the session invariant |
| Relay.InitialInv | windowname.js:98 | the session `init` leaves satisfies the session invariant |
| Relay.Submitted | windowname.js:237 | `send` sets state 2 and changes nothing else of the session; SubmittedInv proves the invariant is kept |
| Relay.SubmittedInv | windowname.js:237 | `send` on a fresh session keeps the invariant and no callback has run |
| Relay.BlankIgnored | windowname.js:160-165 | a load seen while the frame shows `about:blank` changes nothing |
| Relay.CreatedIgnores | windowname.js:167-184 | in state 1 no branch of the handler applies |
| Relay.CleanedIgnores | windowname.js:135-136 | after `clean` the handlers are detached and a load changes nothing |
| Relay.SubmittedAdvances | windowname.js:167-184 | in state 2 a load navigates the frame to the proxy and sets state 3; the state-3 branch ran first, so the callback does not run on that load |
| Relay.ForeignWaits | windowname.js:124-133 | in state 3, when the host differs or cannot be read, the frame is sent to the proxy again and the state stays 3 |
| Relay.NotReadyWaits | windowname.js:171-173 | in state 3 at the local origin, a `readyState` that is set and not `complete` in any letter case leaves the session unchanged |
| Relay.UpperCaseComplete | windowname.js:173 | `COMPLETE` counts as ready and `loading` does not |
| Relay.Completes | windowname.js:167-178 | in state 3, local and ready, the callback receives the payload once and the session is cleaned |
| Relay.CallOnlyOnFinish | windowname.js:175-177 | the callback runs on a load if and only if that load completes the session, and then exactly once |
| Relay.NoRegression | windowname.js:167-184 | the state never decreases, only state 2 leads to state 2, and state 3 stays 3 |
| Relay.PayloadNeverDefault | windowname.js:117-122 | the callback never receives the uuid: a name equal to it is replaced by the error answer, and any other name is handed over unchanged |
| Relay.NextPreservesInv | windowname.js:160-185 | one load keeps the session invariant: at most one callback, and it happened exactly when the session is cleaned, which is only in state 3 |
| Relay.RunPreservesInv | windowname.js:160-185 | however many loads arrive, the session invariant holds and the callback has run at most once |
| Relay.RunMonotone | windowname.js:160-185 | along any run the state only grows, earlier callbacks are kept, and a cleaned session never changes |
| Relay.RoundTrip | windowname.js:160-185 | a remote load and then a ready proxy load at the local origin finish the session with one callback and one navigation |
| WindowName.Defaults | windowname.js:29-32 | the defaults are `localProxy` = `/favicon.ico` and `defaultName` = `cross.default.name`, in that order, with distinct keys |
| WindowName.FileNodes | windowname.js:63 | `options.files`, or no files when it is missing: a falsy value gives no files, and an array of nodes gives those nodes in order |
| WindowName.FileNodesOfShape | windowname.js:63 | the files read through the copy of the options are the caller's file inputs, since nodes are copied by reference |
| WindowName.ReadMerged | windowname.js:33 | after the merge, a key other than the defaults' reads as in the caller's options |
| WindowName.Mount | windowname.js:77-88 | frame and form are appended last to the body and nothing else in the page changes |
| WindowName.StageInput | windowname.js:203-206 | appending a new input to the form keeps the document staged, with that input last |
| WindowName.FilesReadyInStage | windowname.js:217-225 | the file inputs are still where the page had them, outside the form and the frame |
| WindowName.Unframe | windowname.js:137 | removing the frame leaves the body with the page's children and the form |
| WindowName.Unmount | windowname.js:148 | removing the form gives every element of the page its original children and parents |
| WindowName.InitOptions | windowname.js:59-68 | the options `init` keeps: the merged options without `params` and `files`, with `defaultName` set to the uuid; InitOptionsFind and OptionsRead pin it down |
| WindowName.InitOptionsFind | windowname.js:61-68 | after `init`, `defaultName` is the uuid and `params` and `files` are gone |
| WindowName.ParamsRead | windowname.js:59 | the params `init` reads are the caller's, up to container identities |
| WindowName.FilesRead | windowname.js:63 | the files `init` reads are the caller's |
| WindowName.OptionsRead | windowname.js:29-68 | the stored options hold the uuid as `defaultName`, no `params` or `files`, the caller's `localProxy` or `/favicon.ico`, and every other caller option |
| Values.CopyFresh | windowname.js:264-285 | the own entries of `clone(v)` hold only containers the copy made, unless `v` is an object `clone` shares |
| WindowName.ConfiguredApart | windowname.js:33-68 | the containers of the options and params `init` keeps are new identities of the copy that `extend` made, disjoint from the caller's containers |
| WindowName.Configure | windowname.js:29-68 | the option handling of the constructor and `init` yields the stored options, the marked params, the files, the proxy and the uuid as `Configured` describes them; every array and plain object in the stored options and params is new, so none is shared with the caller's options |
| WindowName.MoveInput | windowname.js:224-230 | one file input moves to the end of the form, its clone takes its place, and its parent is recorded |
| WindowName.MovedGrown | windowname.js:223-231 | after one turn of the file loop the records cover one more file, in order, with the new clone disabled |
| WindowName.MoveNext | windowname.js:223-231 | one turn of the file loop keeps the loop invariant one file further on |
| WindowName.RelocateFiles | windowname.js:223-231 | after the file loop every file input has been moved and recorded, in order |
| WindowName.BookkeptDone | windowname.js:218-232 | once all inputs have moved, `_files` holds one record per file: the input, its disabled clone and its original parent |
| WindowName.PlaceFiles | windowname.js:217-232 | the file loop as a whole: every input is at the end of the form in order, each clone stands in its place, and the records match |
| WindowName.InFlightForm | windowname.js:217-232 | while in flight the form holds the field inputs followed by the file inputs, and each clone is disabled in its input's old parent |
| WindowName.PutBack | windowname.js:143-144 | undoing the first remaining record gives the closed form for the remaining files |
| WindowName.RestoreFiles | windowname.js:140-147 | the loop of `clean` undoes every record in order, and the document then agrees with its state before the move |
| WindowName.FrameApart | windowname.js:137 | the frame is none of the file inputs or clones, so removing it leaves every recorded parent in place |
| WindowName.CleanTail | windowname.js:148 | with the inputs restored and the frame gone, removing the form gives the page back |
| WindowName.Unpost | windowname.js:135-158 | `clean` as a whole: every element of the page has its original children and parents, no clone is left, and only the detached form keeps the field inputs |
| WindowName.NewTransfer | windowname.js:25-36 | `new Transfer(url, callback, options)` yields a configured transfer in state 1, with frame and form mounted, the page otherwise unchanged, and no container shared with the caller's options |
| WindowName.Transfer.constructor | windowname.js:70-100 | frame and form are new nodes appended to the body, the form is url-encoded and empty, and the session is the initial one |
| WindowName.Transfer.AddInput | windowname.js:240-245 | `genInput` adds one new input with the next free node number, posting its value under its name, last in the form; `fieldOf` records that this input posts that field, so the pairing of earlier inputs with their fields is kept |
| WindowName.Transfer.AddEntry | windowname.js:199-207 | one own entry appends exactly its expansion to the posted fields, through inputs with consecutive new node numbers, the k-th new input posting the k-th field of the expansion |
| WindowName.Transfer.AddFields | windowname.js:197-210 | the first loop of `send` posts exactly the fields of the params, in order: the form's k-th input has node number `next + k` and posts the k-th field |
| WindowName.Transfer.MoveFiles | windowname.js:217-232 | the encoding becomes multipart exactly when there are files; the inputs are moved and recorded, and the document agrees with the closed form |
| WindowName.Transfer.Send | windowname.js:187-237 | `send` keeps the object invariant, sets state 2, fills the form with the field inputs followed by the file inputs, the k-th field input posting the k-th field of the params, and leaves options, params and files unchanged |
| WindowName.Transfer.Clean | windowname.js:135-158 | after `clean` the page is restored, `_files` is empty and the session is cleaned |
| WindowName.Transfer.OnSignal | windowname.js:160-185 | a load event updates the session exactly as `Relay.Next` says and keeps the invariant; only the session, the document and the records may change; the document and the records change only when the load completes the session, and then the page is restored and the records are empty |
| WindowName.Transfer.Reroute | windowname.js:168-170 | a load at a foreign origin in state 3 records one more navigation to the proxy |
| WindowName.Transfer.Advance | windowname.js:181-184 | the first load after `send` navigates to the proxy and sets state 3 |
| WindowName.Transfer.Finish | windowname.js:175-177 | the callback receives the payload once, then `clean` restores the page |
| WindowName.Transfer.Submit | windowname.js:235-237 | after `form.submit()` the state is 2 and the object invariant holds with the transfer in flight |

## Left out

- Isolation of the page: each `Transfer` owns its `doc` value, so the model cannot express concurrent transfers on one page or other scripts editing it. `Restored` and `Unpost` hold only when nothing else changes the page between `init` and `clean`.
- The IE `createElement('<iframe name="...">')` attempt and its fallback (windowname.js:42-55): the frame is a fresh node, and how the browser builds it is not modelled.
- Styles of the frame and the form (windowname.js:74-76, 81): they only affect presentation.
- The routing attributes `form.target`, `form.action` and `form.method` (windowname.js:83-85) and `frame.name = uuid` (windowname.js:72): posting into the frame is abstracted by the `submitted` flag, and the uuid sentinel the frame starts with is the `name` observed in `Relay.Signal`.
- Real navigation, `form.submit()` posting over the network and the same-origin policy: they become a navigation log, a `submitted` flag and the observations in `Relay.Signal`.
- What the remote page writes into `window.name`: it is an input of each signal.
- `new Date().getTime()`: the time is a parameter. Uniqueness of uuids across transfers is not claimed; only that different times give different uuids.
- The choice between `onreadystatechange` and `onload` (windowname.js:110-114): handler registration is host plumbing. `cleaned` stands for detached handlers.
- Nulling and deleting the object's own fields at the end of `clean` (windowname.js:150-157): it is modelled as the terminal `cleaned` flag.
- The write-only variable `done` (windowname.js:108, 176): it has no observable effect.
- The `if (form)` test in `clean`: the form always exists while the transfer is in flight.
- WindowName.Transfer.Send: requires state 1 and a session that is not cleaned. A second `send`, or `send` after `clean`, when the fields are deleted, is not modelled.
- WindowName.Configure: requires `options.files` to be falsy or an array of element nodes, the type the documentation gives it (windowname.js:8); the same holds for `WindowName.NewTransfer`. Not modelled are: a plain object, a number or `true`, whose `files.length` is undefined, so `send` moves no file (windowname.js:219-220); a NodeList, which `send` walks like an array; and a string, or an array of values that are not nodes, where `parentNode.insertBefore` or `cloneNode` throws.
- WindowName.NewTransfer: requires the file inputs to be distinct and attached. A repeated or detached file input is not modelled.
- Relay.Lower: lowers ASCII letters only, not the full Unicode `toLowerCase`.
- Values.Extend: works on the target's entry list as a value, so aliasing between `target` and other references is not modelled. In windowname.js the target is the fresh defaults object, so there is no aliasing to model.
- Engines enumerate integer-like keys first. The model enumerates keys in insertion order.
- Numbers are integers: NaN, floating point and field values converted to strings by `input.value = value` are not modelled. A field keeps the value it was given.
- Errors the DOM raises. `NotFoundError` cannot arise, because the reference node is always a child where the relay calls `insertBefore` and `removeChild`. `HierarchyRequestError` can: a file input that is the body or an ancestor of the form makes `appendChild` throw (windowname.js:230). The model does not check for it: it moves such an input anyway and builds a cycle, where the browser would throw and stop `send`.
- Expando properties of host objects: a DOM node has no own enumerable keys in the model.
- Exceptions thrown by the callback, and re-entrant calls from it.
- The object's own fields other than `state` (`url`, `callback`, `options`, `params`, `files`, `frame`, `form`, `_files`) are constants or fields of the class and are not deleted by `Clean`.
- Node and container identities come from one shared counter, so copies of the options and nodes of the page never share a number.
- Cyclic option values: `clone` recurses forever on them (windowname.js:264-285). Values are finite trees in the model.
- A `params` object or options object with a truthy `nodeType`, or a host object: `clone` returns it by reference, so `params.windowname = 1` writes the mark onto the caller's own object. The model works on values and cannot show that write through the shared reference.
- WindowName.ConfiguredApart: makes no claim about the entries of options or params that `clone` shares by reference, since those are the caller's own containers.
