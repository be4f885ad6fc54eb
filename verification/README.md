# A Dafny model of cozytempl

cozytempl is a web front end for Kubernetes tenants. This project models the parts of it that keep
state or run concurrently, and proves what they promise.

| modules | what they model |
|---|---|
| `SpecTree`, `FormSpec`, `SpecHeap`, `Schema`, `Edits` | how an edit form becomes the next spec of an application: dot-paths, coercion, the deep merge (as functions on trees, and in place on linked maps), the schema walk, and the optimistic write against a versioned object |
| `Ring`, `Delivery`, `Fanout`, `Watcher`, `Rows`, `Page`, `EventStream`, `Resume`, `Session` | live updates: the replay ring, the fan-out to bounded channels, the frames on the wire and the browser's parser, the row table, a page with its pending deletes over time, and a browser that loses its connection and resumes |
| `LogPump` | the pod-log pipeline: reader, queue, writer, error slot, teardown |
| `RateLimit` | the per-user token buckets and the janitor |
| `Events`, `Palette` | event selection and de-duplication, and the concurrent fan-out of the command palette |
| `Text`, `Sorting` | Go's `strings`, `strconv` and `sort.Slice`, as far as the above rely on them |

Loops, maps written in place, the ring, the watcher, the limiter store and the row table are methods and
classes; each is proved against a function, or against a step of a state machine, and the properties are
proved about that. `dafny verify dfyconfig.toml` checks everything.

## How to read the models

- Go's random map order is an arbitrary choice of the next key in the methods, and an arbitrary
  duplicate-free enumeration in the lemmas. `sort.Slice` is any sorted permutation.
- Concurrency is a state machine over a sequence of actions. An action that is not possible in a state
  changes nothing there, so a statement about all action sequences is a statement about all interleavings.
- The API server is one cell whose version never repeats; a PUT lands when it carries the cell's version.
- `rate.Limiter` follows its documented contract in exact integers: a token is 50,000,000 units and a
  bucket gains one unit a nanosecond. Each call of `allow` is atomic and takes one instant.
- `Delivery` keeps the fan-out of `handleEvent` as separate steps after the mutex is released, so clients
  subscribe and leave in the middle of it. When the last one leaves, the tenant's map is dropped and a
  newcomer goes into another, which the fan-out does not range over (`Publication.deserted`). Each method of
  the `Watcher` class is one such step; `Publish` and `OfferTo` are the two parts of `handleEvent`, and
  `HandleEvent` runs them without interference. `Fanout` goes one step finer: picking a subscriber and
  sending to it are two steps, and the subscriber may leave, which closes its channel, in between.
- JSON encoding, row rendering, YAML parsing and `strconv.ParseFloat` are parameters. JSON is assumed to
  put no line break into a payload and to be decoded to what was encoded (`Resume.Faithful`).
- The browser's EventSource is the algorithm of sections 9.2.5 and 9.2.6 of the HTML Living Standard. By
  the letter of 9.2.6 each stream starts with an empty event ID buffer, so the blank line of the preamble
  forgets the ID; a browser may instead let a new stream inherit it. `EventStream.Opened` has the choice as a
  parameter, and all theorems hold for both.
- `Page` is what a page keeps: the rows and the pending deletes of static/ts/sse.ts. Messages and deletes come
  at times; a message within five seconds of a delete is suppressed unless it is a removal. A delete that the
  server accepts takes the row out in the browser (internal/view/page/app_table_rows.templ:44-50); a swap
  whose row element has been replaced meanwhile does nothing and is no input.
- `Session` puts it together: any server actions, and a browser that connects, receives any number of
  characters of what was written at any time, loses the connection, connects again, has its EventSource
  created anew, or has a delete requested or accepted on its page. The theorems need what `Sound` says at each step: a
  reconnection comes before more than 128 newer events, IDs fit 64 bits, and nothing is read from a channel
  that dropped an event. They speak of the time since the present source started over (`Origin`): when it was
  created, or when it last connected without an event ID.

## What the proofs found

- No event is handed to a subscriber twice, whatever happens afterwards, if and only if it does not resume from
  before an event that is just then being fanned out over the map it goes into (`Delivery.ExactlyOnceIff`);
  without drops none is left out (`Delivery.NoneLeftOut`). A first connection that joins in the middle of a
  fan-out may be sent one event from before it came, but none twice (`Delivery.StartsAtJoinIff`). A duplicate
  does not change the rows (`Rows.OverlapChangesNothing`), unless a pending delete suppressed it the first time
  (`Rows.RepeatedMessageActsIff`).
- The watcher panics in a run if and only if a subscriber leaves after the fan-out has picked it and before the
  send (`Fanout.RunPanicsIff`).
- Resuming loses no message (`Session.ResumedClientHeardItAll`), but it changes when messages are heard, and
  so which of them a pending delete suppresses. A change logged just after a delete is suppressed on a
  connected page; a page that reconnects after the window is replayed it and puts the row back
  (`Page.ChangeHeardAfterTheWindow`). A page on which a delete was accepted shows no row even if no removal has
  been logged yet (`Page.DeletedOnOnePage`). Every row is the last word on it, which marks, times and
  messages determine (`Page.RowIsLastWord`); `Session.ResumedPageEndsAsIfNeverDropped` says for every name that
  a resumed page and one that never dropped agree exactly when the last words do, and that a last word is the
  log's unless a late change or an accepted delete came after it. `Page.TwoSchedulesAgreeIff` has the
  condition for any log heard at two sequences of times: a later removal or row that both hear heals it.
- A source without an event ID gets no replay (`Session.NothingSeenNothingReplayed`): one that has seen no
  frame; one whose streams do not inherit the ID and that lost its connection between the preamble and the
  first frame (`EventStream.StreamCutAnywhere`); and one created anew because `onerror` found the old one
  closed (static/ts/sse.ts:261-268). The page stays, and of the events before the new connection it can at
  most see the last, if that is just being fanned out (`Session.RecreatedSourceSkipsTheGap`).
- A replay is complete exactly when at most 128 events were missed (`Session.ReplayIsCompleteIff`).
- A PUT replaces exactly the spec it was computed from when the pinned version is empty or no newer than
  the fetched one. A version that no snapshot ever returned can lose another writer's change
  (`Edits.GuessedVersionLosesUpdate`).
- Two successive edits are the same as one merged edit exactly under `SpecTree.Composes`
  (`SpecTree.MergeAssociative`).
- A read error, unlike EOF, may end the writer with chunks still queued; everything read was written exactly
  when the queue is empty then (`LogPump.WriterLeftNothingIff`, `LogPump.ReadErrorMayDropChunks`).
- Code and comments disagree in four places, where the model follows the code:
  - internal/handler/crud.go:257-259 and internal/k8s/tenant.go:261-264 say that an empty resource version
    means the last write wins. The PUT then carries the version just fetched, so it can still conflict.
  - internal/api/palette.go:149-153 calls the palette's order deterministic. It is exactly when no two
    different apps share tenant and name (`Palette.IndexIsDetermined`, `Palette.SharedSlotIsAmbiguous`).
  - internal/handler/crud.go:604-609 keeps an earlier scalar from a longer key, but a shorter key that
    comes later does overwrite. The result does not depend on the order all the same.
  - internal/handler/crud.go:582 says that schema forms do not generate colliding keys. For dot-free property
    names they do exactly when a property named "" has a field x and another, named field is x or lies below
    x (`Schema.UnnamedParentCollides`).

## Model

| member | source | states |
|---|---|---|
| `SpecTree.SameLeaves` | internal/handler/crud.go:586-616 | a spec without empty maps is determined by its leaves |
| `SpecTree.BlockedIff` | internal/handler/crud.go:602-610 | the walk stops at a scalar exactly when some proper prefix of the path holds a leaf |
| `SpecTree.SetNestedAt` | internal/handler/crud.go:586-616 | every leaf after a write: dropped writes change nothing, a landed one holds its value, clears what was below it and leaves all other paths alone |
| `SpecTree.SetNestedNoEmpty` | internal/handler/crud.go:586-616 | a write, also a dropped one, leaves no empty map behind |
| `SpecTree.MergeAt` | internal/k8s/merge.go:38-64 | every leaf after a merge, from the two trees before it |
| `SpecTree.TouchesIff` | internal/k8s/merge.go:38-64 | the merge touches a path exactly when a leaf of the incoming tree is prefix-comparable with it |
| `SpecTree.MergeIdempotent` | internal/k8s/merge.go:38-64 | merging the same tree twice is merging it once |
| `SpecTree.CoveredIff` | internal/k8s/merge.go:38-64 | which trees disappear under a merge without a trace |
| `SpecTree.MergeAssociative` | internal/k8s/merge.go:38-64 | (a·b)·c = a·(b·c) if and only if no path has a map in a, a scalar in b and a map in c that leaves some of a's keys out |
| `SpecTree.MergeOfSet` | internal/k8s/merge.go:38-64 | an unblocked write to the incoming tree is a forced write to the merged tree |
| `FormSpec.RealizesUnique` | internal/handler/crud.go:553-569 | at most one tree has exactly the prefix-minimal paths of a form as leaves |
| `FormSpec.BlockedByEarlier` | internal/handler/crud.go:602-610 | a form write is dropped exactly when a shorter key of its path came before |
| `FormSpec.RealizesStep` | internal/handler/crud.go:553-616 | one more field keeps the tree exact, whether its write lands, is dropped or overwrites longer keys |
| `FormSpec.WantedStep` | internal/handler/crud.go:553-569 | one more field adds its path and coerced value to what is wanted, or nothing if it is reserved or blank |
| `FormSpec.KeptIff` | internal/handler/crud.go:401-409 | which fields count: all but the five of the form itself and the blank ones |
| `FormSpec.ConvertedValues` | internal/handler/crud.go:618-639 | what each schema type makes of a text: booleans, 64-bit integers with their sign, numbers, and the text itself where it does not parse or no type asks for more |
| `FormSpec.ExtractRealizes` | internal/handler/crud.go:553-569 | for every enumeration of the form the leaves are exactly the prefix-minimal submitted paths with their coerced values |
| `FormSpec.ExtractionIgnoresOrder` | internal/handler/crud.go:553-569 | every iteration order of the form map gives the same spec, colliding keys included |
| `FormSpec.FormEditAt` | internal/k8s/merge.go:15-21 | an existing leaf survives a form edit exactly when no submitted path is comparable with it; minimal paths hold the submitted values |
| `FormSpec.FormEditIsForcedWrites` | internal/k8s/merge.go:15-64 | merging a form equals writing its minimal paths into the stored spec one by one, in any order |
| `FormSpec.RequestsBuild` | internal/handler/crud.go:469-528 | for every mode, YAML text and schema result: which spec an accepted request carries, whether it replaces, and which error a rejected one gets |
| `FormSpec.EditNeverEmpties` | internal/handler/crud.go:469-528 | no accepted request empties a non-empty spec; only YAML replaces, and a form keeps every stored top-level key |
| `SpecHeap.DeepMergeSpec` | internal/k8s/merge.go:38-64 | in place on maps that share nothing: base becomes the pure merge, incoming's maps are never written, in any key order |
| `SpecHeap.MergeEntry` | internal/k8s/merge.go:43-61 | one turn of the loop: the child is merged in place, or the incoming value replaces it |
| `SpecHeap.DeepMergeSpecOrNil` | internal/k8s/merge.go:38-41 | a nil base takes the incoming tree's value |
| `SpecHeap.SetNestedSpec` | internal/handler/crud.go:586-616 | the walking pointer writes exactly what the tree function says; maps created on the way to a dropped write do not exist |
| `SpecHeap.CreateChild` | internal/handler/crud.go:594-600 | a missing key gets a fresh empty map that the walk steps into |
| `SpecHeap.ExtractSpecFromForm` | internal/handler/crud.go:553-569 | whatever order the map range takes, the result is the one tree of the prefix-minimal fields |
| `Schema.WalkFieldTypes` | internal/handler/crud.go:166-201 | over any order: every field the schema has gets its key, and every key comes from a field with that type |
| `Schema.FieldsPrefixFree` | internal/handler/crud.go:159-201 | fields have at most two segments and none extends another |
| `Schema.DeclaredFields` | internal/handler/crud.go:166-201 | which declarations are fields: scalars at the top and one object below it, with their types; arrays and deeper objects are not |
| `Schema.KeyRoundTrip` | internal/handler/crud.go:176-183 | a field's form key splits back into its path exactly for dot-free names under a named parent |
| `Schema.TypesDetermined` | internal/handler/crud.go:166-201 | for such schemas the collected types do not depend on the order of the walk |
| `Schema.EveryFieldLands` | internal/handler/crud.go:553-616 | a form limited to such a schema's fields yields one leaf per kept field, with the value of the form's types, and no other leaf |
| `Schema.FieldsLandCoerced` | internal/handler/crud.go:139-201 | with the types the walk collects, the leaf of each kept field is its text coerced as the schema declares that field |
| `Schema.LandingOf` | internal/handler/crud.go:176-183 | in a dot-free schema a field is written at its own path, or, below a property named "", at its last segment |
| `Schema.UnnamedParentCollides` | internal/handler/crud.go:579-609 | two different fields of a dot-free schema land on comparable paths if and only if a field x below a property named "" meets a named field that is x or lies below x |
| `Schema.ShadowingSchema` | internal/handler/crud.go:166-201 | such a schema exists |
| `Edits.ExecKeepsInv` | internal/k8s/application.go:257-301 | every step keeps: the cell and all fetched or shown objects are known versions, and an informed pin is no newer than what was fetched |
| `Edits.PutIsSerial` | internal/k8s/application.go:257-301 | a refused PUT changes nothing; one that lands stores the merge into the fetched spec, which is the replaced one iff the pin is empty or not newer |
| `Edits.PutLandsIff` | internal/k8s/application.go:280-296 | a PUT lands if and only if the object exists with the pinned version, or with the fetched one if none is pinned |
| `Edits.NextSpecIsEdited` | internal/k8s/merge.go:15-64 | leaf by leaf what an edit makes of a spec: the submitted leaf; nothing where something comparable is submitted or, for tenants, under a reserved key; else what was there; and as YAML just what is submitted |
| `Edits.PutEditsTheStoredSpec` | internal/k8s/application.go:257-301 | in every run an informed PUT that lands is, leaf by leaf, an edit of what is stored at that moment |
| `Edits.LastEditAt` | internal/k8s/tenant.go:265-322 | in every run the stored spec is, leaf by leaf, the last edit of what the writes before it left |
| `Edits.SnapshotInforms` | internal/k8s/application.go:211-245 | a snapshot shows the stored object, and pinning its version makes a request informed |
| `Edits.QuietEditLands` | internal/k8s/application.go:257-301 | an edit that nobody interferes with lands as that edit of the stored spec |
| `Edits.PinnedEditSawCurrentSpec` | internal/k8s/application.go:211-301 | a successful pinned edit replaced exactly the object its author was shown |
| `Edits.EditsAreSerializable` | internal/k8s/application.go:211-301 | in every interleaving the stored spec is the fold of the successful writes in commit order |
| `Edits.GuessedVersionLosesUpdate` | internal/k8s/application.go:280-290 | a version nobody was shown can land on an unseen write and lose it |
| `Edits.TenantEditScrubs` | internal/k8s/tenant.go:265-322 | in every run, while a tenant edit is the last write, a reserved key is stored exactly if that request carried it, with its value |
| `Ring.ReplayBuffer.Add` | internal/k8s/watcher.go:67-78 | the ring holds the last 128 events added |
| `Ring.ReplayBuffer.Since` | internal/k8s/watcher.go:83-108 | the retained events above the ID, in order |
| `Ring.AboveIsTail` | internal/k8s/watcher.go:83-108 | in a log with increasing IDs, the events above an ID are a tail |
| `Ring.ReplayIsSuffix` | internal/k8s/watcher.go:56-108 | a replay is a contiguous suffix of the log, complete if and only if at most 128 logged events are above the ID |
| `Delivery.TenantLogIncreasing` | internal/k8s/watcher.go:269-281 | a tenant's log has strictly increasing IDs |
| `Delivery.TenantLogHas` | internal/k8s/watcher.go:288-297 | a tenant's log holds the tenant's events and no others |
| `Delivery.OfferDropsIffFull` | internal/k8s/watcher.go:305-319 | an offer is queued while fewer than 100 events wait and dropped otherwise |
| `Delivery.RunKeepsInv` | internal/k8s/watcher.go:160-320 | every run keeps, for every subscription, what it was given as part of its tenant's log |
| `Delivery.SubscriptionIsGivenTheTail` | internal/k8s/watcher.go:160-320 | the replay ends where the subscription began; live events are its tenant's, in order, fewer by exactly the number of drops, and so all of them iff there was none; at most one event comes twice |
| `Delivery.AtomicRunsJoinCleanly` | internal/k8s/watcher.go:269-320 | with atomic publications nobody is offered an event stored before it subscribed |
| `Delivery.AtomicDeliveryIsExactlyOnce` | internal/k8s/watcher.go:160-320 | the special case of runs in which no subscription of any tenant falls into a publication: with no drop each event of the tail is delivered exactly once in order |
| `Delivery.CleanIsOneStretch` | internal/k8s/watcher.go:160-320 | a subscription that joined clean is, with no drop, given one stretch of its tenant's log, each event once |
| `Delivery.ReachedNewcomer` | internal/k8s/watcher.go:299-320 | a newcomer that the fan-out reaches is offered the event just before its join, which no stretch from its start includes |
| `Delivery.StartsAtJoinIff` | internal/k8s/watcher.go:160-320 | per subscription and in every continuation: the live events start at the join, and without drops all is one stretch of the log from the replay's start, if and only if no fan-out for the tenant was running over the map it went into |
| `Delivery.NoneLeftOut` | internal/k8s/watcher.go:160-320 | without drops every event from the replay's start on has been handed over |
| `Delivery.ExactlyOnceIff` | internal/k8s/watcher.go:160-320 | per subscription: in every continuation what is handed over increases strictly, so that no event comes twice, if and only if it does not resume, over a map being ranged over, from before the event being fanned out |
| `Fanout.FanoutIsRun` | internal/k8s/watcher.go:305-319 | with picking and sending apart, what subscribers are given is still what a run of the coarser machine gives them |
| `Fanout.RunIsFanout` | internal/k8s/watcher.go:305-319 | and every run of the coarser machine is one with picking and sending apart, without a panic |
| `Fanout.SendPanicsIff` | internal/k8s/watcher.go:186-202 | whatever comes between picking a subscriber and its send, the send panics if and only if that subscriber unsubscribed in between |
| `Fanout.RunPanicsIff` | internal/k8s/watcher.go:186-320 | a run panics if and only if somewhere in it a picked subscriber unsubscribes before its send |
| `Delivery.ResumingMidPublicationDuplicates` | internal/k8s/watcher.go:290-320 | a client that resumes during the fan-out of an event it has not seen, over a map that was never emptied, is replayed it and then offered it again |
| `Watcher.Watcher.Subscribe` | internal/k8s/watcher.go:160-183 | one Subscribe step, with the replay read from the ring |
| `Watcher.Watcher.Receive` | internal/api/sse.go:244-254 | the head of the channel, and one Receive step |
| `Watcher.Watcher.Unsubscribe` | internal/k8s/watcher.go:186-202 | one Unsubscribe step; an emptied tenant entry goes, an unknown channel changes nothing |
| `Watcher.Watcher.FindSubscriber` | internal/k8s/watcher.go:190-201 | the tenant that lists the channel, if any does |
| `Watcher.Watcher.Record` | internal/k8s/watcher.go:288-297 | the event is in its tenant's ring and no other ring changes |
| `Watcher.Watcher.FanOut` | internal/k8s/watcher.go:299-319 | the whole range without interference: every subscriber of the tenant with room gets the event, in any order; the others lose it |
| `Watcher.Watcher.Publish` | internal/k8s/watcher.go:269-303 | the part under the mutex: one Publish step, after which the fan-out is under way and others may act |
| `Watcher.Watcher.OfferTo` | internal/k8s/watcher.go:305-319 | one turn of the range, whose subscriber has not left since it was picked: a send or a drop is one Offer step, in any state others have left |
| `Watcher.Watcher.HandleEvent` | internal/k8s/watcher.go:269-335 | without interference: an added, modified or deleted object is stamped, stored as such and offered to all; any other kind changes nothing |
| `Watcher.AtomicPublishIsRun` | internal/k8s/watcher.go:269-320 | handling an event without interference is one run of the step machine |
| `Watcher.ListsPublished` | internal/k8s/watcher.go:299-319 | after a fan-out the subscribers map still lists exactly the live subscriptions and their queues |
| `Rows.AppTable.ApplyChange` | static/ts/sse.ts:163-201 | the reducer: the rows and the pending deletes after a message, suppressed or not |
| `Rows.AppTable.IsPendingDelete` | static/ts/sse.ts:207-217 | the answer; a stale entry is dropped, and that changes no later answer |
| `Rows.ApplyIsAct` | static/ts/sse.ts:121-201 | the effect of any messages on one row depends on that name's messages only, and is one of keep, badge or outcome |
| `Rows.ReplayChangesNothing` | static/ts/sse.ts:163-201 | applying again what was just applied changes nothing |
| `Rows.OverlapChangesNothing` | static/ts/sse.ts:163-201 | a stream that overlaps what was applied leads to the same table as one that does not |
| `Rows.RepeatedMessageActsIff` | static/ts/sse.ts:163-225 | on one page, a message that comes twice acts the second time exactly when a pending delete suppressed it first and its window has closed since |
| `Page.RowsAreActing` | static/ts/sse.ts:163-225 | the rows are what the unsuppressed messages and the accepted deletes make of the first ones |
| `Page.RowsAreLetThrough` | internal/view/page/app_table_rows.templ:44-50 | the same, with the unsuppressed messages computed from marks, times and messages alone |
| `Page.PendingIff` | static/ts/sse.ts:207-225 | a delete is pending exactly within five seconds of its last mark, and until its removal is heard |
| `Page.HiddenIff` | static/ts/sse.ts:163-225 | the last message for a name was suppressed exactly if it is no removal and came within five seconds of a mark not yet cleared |
| `Page.RowIsStanding` | static/ts/sse.ts:121-201 | a row is the outcome of the last message for its name |
| `Page.RowIsLastWord` | static/ts/sse.ts:163-225 | every row is decided by the last accepted delete of the name, or the last message for it that is a removal or came more than five seconds after its mark, or else the first page |
| `Page.SettledIsWhole` | static/ts/sse.ts:163-225 | unless a late change or an accepted delete came last, the last word is what all messages heard say, suppressed or not |
| `Page.PageShows` | static/ts/sse.ts:163-225 | a page shows the last word, and for a settled name what all it heard says |
| `Page.PagesAgreeIff` | static/ts/sse.ts:163-225 | two pages with one origin agree on a name if and only if the last words on it agree, and always if they heard the same and the name is settled on both |
| `Page.InitialStretch` | static/ts/sse.ts:163-225 | without further deletes the suppressed messages of a name are an initial stretch |
| `Page.BecomeIff` | static/ts/sse.ts:163-201 | a stretch of messages fixes a row whatever it was exactly if it holds a removal or a row for it |
| `Page.TwoSchedulesAgreeIff` | static/ts/sse.ts:163-225 | one log, two sequences of arrival times: two pages agree on a name if and only if a removal or a row comes that both let through, or what only one let through leaves no trace |
| `Page.ChangeHeardAfterTheWindow` | static/ts/sse.ts:163-225 | one change after a delete, heard within the window and after it: the second page has the row back, and they agree exactly if it was the row shown |
| `Page.DeletedOnOnePage` | internal/handler/crud.go:318-326 | a delete accepted on one page only, with no removal logged yet: the pages heard the same and differ exactly if there was a row |
| `EventStream.ReadFrame` | internal/api/sse.go:287 | reading one emitted frame dispatches its payload and sets the last event ID |
| `EventStream.ReadCutFrame` | internal/api/sse.go:287 | a frame cut short dispatches nothing and does not move the last event ID |
| `EventStream.ReadPreamble` | internal/api/sse.go:131 | the preamble sets the retry time and dispatches nothing |
| `EventStream.ReadFrames` | internal/api/sse.go:259-295 | any number of frames dispatches exactly their payloads, in order |
| `EventStream.StreamCutAnywhere` | internal/api/sse.go:131-295 | wherever the connection breaks, the browser has seen the first k payloads and keeps the k-th ID; before the first frame it keeps its ID iff streams inherit it or the cut falls before the preamble's blank line |
| `EventStream.ReadDrained` | static/ts/sse.ts:249-257 | what was dispatched before has no influence on what is dispatched next |
| `EventStream.LastEventIDRoundTrip` | internal/api/sse.go:185-196 | the ID the browser sends back parses to the one stamped on the last frame, for every ID of a 64-bit counter |
| `EventStream.OtherIDsAreZero` | internal/api/sse.go:185-196 | an empty, malformed, too large or negative header asks for no replay |
| `Resume.FramesDecode` | internal/api/sse.go:259-338 | the payloads of the frames written for some events decode to their messages; an event without a name adds no frame |
| `Resume.FramedIff` | internal/api/sse.go:301-338 | an event has a frame, with its ID, if and only if its app has a name and it is a deletion or its row renders |
| `Resume.MessageSays` | internal/api/sse.go:301-338 | operation, name, status and row of the message of each kind of event |
| `Resume.RowIsLogWord` | static/ts/sse.ts:121-201 | after any events each row is what the events themselves say: none after a deletion, else the rendered row with its status of the last one that renders, else as before |
| `Resume.ConnectionReads` | internal/api/sse.go:143-178 | cut anywhere, a connection delivers the messages of some first j events and the j-th's ID; uncut, all of them |
| `Resume.ResumedStream` | internal/k8s/watcher.go:174-180 | the replay starts right after the event the client saw last |
| `Resume.ResumedRead` | internal/api/sse.go:143-178 | what a resumed connection delivers, cut anywhere, leaves the client in step with the log, even when one event comes twice |
| `Session.ReadOn` | static/ts/sse.ts:249-257 | a stream read in pieces, each handled as it arrives, delivers what one reading delivers |
| `Session.RunKeeps` | internal/api/sse.go:143-178 | in every timed run the browser is in step with its tenant's log, its open subscription continues from where it stood, and its page is what its inputs make of it |
| `Session.AlwaysInStep` | internal/api/sse.go:143-178 | however often and wherever connections break, what was heard says of every row what the tenant's events say, up to the last one seen, and the page's rows are the effect of the accepted deletes and the messages that were not late |
| `Session.ResumedClientHeardItAll` | internal/api/sse.go:143-178 | once caught up, all that was heard over all connections says of every row what the tenant's events themselves say, as on a single unbroken connection |
| `Session.CatchesUp` | internal/api/sse.go:226-256 | what has been written can arrive in full, and then the browser is caught up |
| `Session.Reconnects` | static/ts/sse.ts:249-273 | a lost connection can be followed by another, which reports the event ID the browser has |
| `Session.ResumedPageEndsAsIfNeverDropped` | static/ts/sse.ts:163-273 | once caught up, the page agrees on a name with a page that never lost its connection, whatever its arrival times and deletes, if and only if the last words agree; on either page a settled name has the row that the tenant's events say |
| `Session.ReplayIsCompleteIff` | internal/k8s/watcher.go:174-180 | a reconnection is replayed all it missed exactly when that is at most 128 events |
| `Session.NothingSeenNothingReplayed` | internal/k8s/watcher.go:174-180 | without an event ID nothing is replayed, and the source starts over at the end of the log from the page as it is, which for a source never recreated is its first page but for accepted deletes |
| `Session.RecreatedSourceSkipsTheGap` | static/ts/sse.ts:249-273 | in every continuation, a source created anew never sees the events before its next connection, but for the very last if that is being fanned out just then |
| `LogPump.ExecConserves` | internal/api/ws_logs.go:446-530 | in every step, written, writer's hand, queue and reader's hand together are the bytes read |
| `LogPump.RunKeepsInv` | internal/api/ws_logs.go:423-530 | every run keeps conservation, the bounds and the reasons for which each party ended |
| `LogPump.OutputIsPrefix` | internal/api/ws_logs.go:423-530 | output is always a prefix of what was read; the backlog is at most four chunks of at most 4096 bytes |
| `LogPump.EOFDeliversEverything` | internal/api/ws_logs.go:446-530 | when the reader has ended on EOF, a writer that was not cut off has written everything |
| `LogPump.EndOfLogDelivers` | internal/api/ws_logs.go:446-494 | in every run in which Read has returned EOF or a cancellation, with or without data: no error is reported, none ends the writer, and on a closed channel everything read up to then is written, but for what the reader abandoned because the context had fired |
| `LogPump.ReadErrorIsReported` | internal/api/ws_logs.go:485-494 | a real read error ends the reader by being reported, unless the context has fired |
| `LogPump.WriterLeavesOn` | internal/api/ws_logs.go:499-530 | the steps on which the writer leaves: context, failed ping or write, closed channel, read error |
| `LogPump.BacklogIsFour` | internal/api/ws_logs.go:56-81 | the channel takes a chunk exactly while it holds fewer than four; a read is of up to 4096 bytes |
| `LogPump.WriterLeftNothingIff` | internal/api/ws_logs.go:446-530 | for every way the writer can leave: all that was read is written exactly when nothing is queued or held; after a read error, exactly when the queue is empty; after a closed channel, exactly when the reader abandoned no chunk |
| `LogPump.NoDeadlock` | internal/api/ws_logs.go:356-530 | every reachable state is finished, waits for the pod, or has a step of its own |
| `LogPump.ReaderEnds` | internal/api/ws_logs.go:356-385 | after teardown the reader ends within four of its steps, and one is always open to it |
| `LogPump.ReadErrorMayDropChunks` | internal/api/ws_logs.go:499-530 | for any chunk, a run in which a read error ends the writer with that chunk queued |
| `LogPump.CopyChunk` | internal/api/ws_logs.go:469-471 | the chunk is a fresh copy of the buffer's first n bytes |
| `LogPump.ReadChunks` | internal/api/ws_logs.go:446-467 | over one reused buffer, the chunks sent still hold exactly the bytes of the reads, in order, after all later reads |
| `RateLimit.RateLimitStore.Allow` | internal/api/ratelimit.go:100-115 | the decision and the new buckets; lastSeen is stamped on refused calls too |
| `RateLimit.RateLimitStore.Sweep` | internal/api/ratelimit.go:73-90 | what stays is exactly what was called in the last 15 minutes |
| `RateLimit.Budget` | internal/api/ratelimit.go:100-115 | tokens handed out since any instant and those left never exceed burst plus refill |
| `RateLimit.AdmitsIffWithinBudget` | internal/api/ratelimit.go:25-115 | a bucket admits a call exactly when no window ending now would exceed 30 calls and 20 a second |
| `RateLimit.StoreMirrorsLimiter` | internal/api/ratelimit.go:25-115 | a stored bucket is the one nobody ever evicts; a missing one would be full |
| `RateLimit.AllowIsExact` | internal/api/ratelimit.go:25-115 | whatever other keys did and whenever the janitor ran, a call is admitted exactly when no window of its key would exceed 30 calls and 20 a second, as by a bucket nobody evicts |
| `RateLimit.WindowBound` | internal/api/ratelimit.go:25-115 | no key gets more than 30 + 20·d calls through in any d seconds |
| `Events.DerivedIffSegments` | internal/k8s/events.go:116-134 | the four string tests hold exactly when the release's hyphen segments occur in a row in the name |
| `Events.DedupeByObjectReason` | internal/k8s/events.go:140-170 | the first occurrence of each pair, in order, up to the limit |
| `Events.EventListIsRight` | internal/k8s/events.go:140-191 | for any result of the sort: distinct pairs, each the newest of its pair, newest first; a pair left out is no newer than any shown |
| `Events.ShownTimesAreDetermined` | internal/k8s/events.go:140-191 | two results of the unstable sort show the same times in the same rows |
| `Events.SelectForObject` | internal/k8s/events.go:91-100 | the events whose object derives from the release, in order |
| `Events.EventsTabIsRight` | internal/k8s/events.go:75-102 | the tab shows only pairs of the release, and all of them unless the limit is reached |
| `Events.RowsAreOrdered` | internal/k8s/events.go:140-191 | no two rows share object and reason, and rows are newest first |
| `Events.TabShowsListedEvents` | internal/k8s/events.go:75-227 | every row has object, reason, message and time of a listed event of the release, and every such event has a row with its object and reason that is no older, unless the limit is reached and no row is older |
| `Palette.PaletteIndex.Fold` | internal/api/palette.go:184-216 | a worker appends its tenant's apps, and the tenant if its list was truncated; a failed one appends nothing |
| `Palette.FanoutAppLists` | internal/api/palette.go:172-221 | the index after the workers ran in a given completion order |
| `Palette.SameItems` | internal/api/palette.go:172-221 | every completion order gives the same items, each exactly as often |
| `Palette.AppsAreListed` | internal/api/palette.go:196-216 | a worker adds its tenant's items one by one under that tenant, and the tenant if its list was cut |
| `Palette.AppsComeFromTenants` | internal/api/palette.go:172-221 | the index holds an app if and only if some successful tenant listed it |
| `Palette.TruncatedComeFromTenants` | internal/api/palette.go:172-221 | and names a tenant as truncated if and only if its list was |
| `Palette.IndexIsOrdered` | internal/api/palette.go:154-165 | any response goes by tenant and, within one, by name, both ascending |
| `Palette.IndexIsDetermined` | internal/api/palette.go:147-168 | the truncated tenants are determined, and the apps are when tenant and name are unique |
| `Palette.SharedSlotIsAmbiguous` | internal/api/palette.go:149-165 | without unique pairs another response is always possible |
| `Text.JoinSplit` | internal/handler/crud.go:587 | splitting a key at its dots loses nothing |
| `Text.ParseFormat` | internal/api/sse.go:190 | printing and parsing a 64-bit ID gives it back |
| `Text.ParseNegative` | internal/handler/crud.go:623-629 | so does a negative one, down to the least 64-bit number |
| `Text.ParsedIsNumber` | internal/handler/crud.go:623-629 | what parses is digits after at most one sign, and in the 64-bit range |
| `Text.StringLessIff` | internal/api/palette.go:154-165 | the order on strings: the smaller character at the first difference, or a proper prefix |
| `Sorting.SortUnique` | internal/api/palette.go:154-165 | an unstable sort has one result once incomparable elements are equal |

## Left out

- Kubernetes, OIDC, YAML and JSON library internals: a versioned cell, a parser's result and an encoding stand for them.
- HTTP routing, headers, authorization, origin checks, templates, toasts, i18n, metrics, audit and configuration: single branches or plumbing.
- The order of rows on the page, the flash effect, and the refetch when a filter is active (static/ts/sse.ts:121-131): the table is a map and no filter is active.
- Rows the page was rendered with before its first connection: the theorems start from the table the EventSource found; what happened between rendering and connecting is not replayed by the code.
- Session.RunKeeps: one tenant's table. Navigation inside the page opens another tenant's with the pending deletes as they are, because they are kept by bare name and never cleared (static/ts/sse.ts:40, 238-273); a `Session` begins with any page, such marks included.
- Restarts of the server, where IDs begin again at one: all statements are within one watcher.
- Delivery.RunKeepsInv: does not model the overflow of the 64-bit event counter; IDs are unbounded there, and bounded where they are parsed.
- Watcher.Watcher.FanOut: one uninterrupted loop, as is Watcher.Watcher.HandleEvent around it; with others acting in between, handleEvent is Watcher.Watcher.Publish and then one Watcher.Watcher.OfferTo per subscriber.
- Watcher.Watcher.OfferTo: picking and sending are one step here; `Fanout` takes them apart. The data race of ranging over a map that others write is not modelled.
- Watcher.Watcher.Receive: a channel is a queue in the subscribers map under a number, not an object of its own.
- Watch reconnection, ping tickers, write deadlines and stream ages: they appear only as actions that may happen at any time.
- RateLimit.AllowIsExact: exact integers in place of rate.Limiter's floating-point tokens, and one instant per call.
- SpecHeap.DeepMergeSpec: base and incoming share no map, as they come from two different parses.
- FormSpec.ExtractRealizes: the text of a float is kept as it is, and strconv.ParseFloat is a parameter.
- Palette.IndexIsDetermined: fixed per-tenant results; a cancelled request shows up as failed tenants.
- The status line, counts, sources and time parsing of events: fields that selection, order and de-duplication do not look at.
- Schema caching, form overlays, usage sums, `TenantService.List` counts and the retry counter of the log viewer: easy members that would not add a hard property.
