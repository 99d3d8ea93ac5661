// Whole runs: any sequence of writes and removals, cut short by power loss at any moment and brought up
// again, shows the effect of the requests answered so far and no part of any other, unless a chunk of
// a blob is shadowed.
module Sessions {
  import opened NvsTypes
  import opened PageImage
  import opened PageRam
  import opened PageSearch
  import opened PageValues
  import opened FlashDevice
  import opened ItemHashList
  import opened StoreImage
  import opened Recovery
  import opened PageLists
  import opened StoreSearch
  import opened StoreWrites
  import opened StoreUpdates
  import opened StoreWalk
  import opened StoreAccounts
  import opened PageManagers
  import opened BlobPurge
  import opened BlobCrash
  import opened Storages
  import opened StorageInits
  import opened Restarts

  datatype Request =
    | Put(ns: byte, typ: ItemType, key: string, v: Input)
    | Remove(ns: byte, typ: ItemType, key: string)

  // What callers pass; a removal may be of any type.
  predicate RequestOk(q: Request) {
    && q.ns != NS_ANY && PlainType(q.typ)
    && (q.Put? ==> !q.typ.ANY? && WellFormed(q.typ, q.v, CHUNK_ANY))
    && (q.Put? && q.v.Primitive? ==> OfWidth(q.typ, |q.v.bytes|))
  }

  // Every name is set with one type.
  ghost predicate OneTypeEach(requests: seq<Request>) {
    forall p, q :: p in requests && q in requests && p.Put? && q.Put? ==>
      p.ns == q.ns && Truncated(p.key) == Truncated(q.key) ==> p.typ == q.typ
  }

  // The names of requests stand for no blobs, and for nothing of another type than they are set with.
  ghost predicate Typed(live: multiset<Rec>, requests: seq<Request>) {
    forall r, q :: r in live && q in requests && OfName(r, q.ns, Truncated(q.key)) ==> FitsRequest(r, q)
  }

  predicate FitsRequest(r: Rec, q: Request) {
    !r.item.typ.BLOB_DATA? && !r.item.typ.BLOB_IDX? && !r.item.typ.BLOB? && (q.Put? ==> r.item.typ == q.typ)
  }

  ghost predicate Orderly(live: multiset<Rec>, requests: seq<Request>) {
    Identified(live) && Tidy(live) && Typed(live, requests) && forall r :: r in live ==> WritableId(r.item)
  }

  // What a request is answered on a store of n pages, and what that does to the records.
  ghost predicate Answered(before: multiset<Rec>, q: Request, err: Error, after: multiset<Rec>, n: nat) {
    exists was :: RecordOf(before, q.ns, Truncated(q.key), was) && AnswerOk(before, q, err, was, n) &&
      after == Outcome(before, q, err, was)
  }

  // Of what has the name and the type something is removed. What is not skipped is refused for its size,
  // or if no page but the reserve has so many entries to spare.
  ghost predicate AnswerOk(before: multiset<Rec>, q: Request, err: Error, was: Option<Rec>, n: nat) {
    match q
    case Remove(_, typ, _) =>
      err == if was.Some? && (typ.ANY? || was.value.item.typ == typ) then OK else NOT_FOUND
    case Put(_, typ, key, v) =>
      if Skips(was, typ, v) then err == OK
      else if SizeOk(typ, key, v) then
        err == OK || (err == NOT_ENOUGH_SPACE && Crowded(before, n, SpanFor(typ, v)))
      else err == SizeError(key, v) || (err == NOT_ENOUGH_SPACE && Crowded(before, n, 1))
  }

  // The records leave fewer than m entries on each page but one.
  ghost predicate Crowded(live: multiset<Rec>, n: nat, m: nat) {
    exists recs: seq<Rec> :: multiset(recs) == live && SpanSum(recs) >= (n - 1) * (127 - m)
  }

  ghost function Outcome(before: multiset<Rec>, q: Request, err: Error, was: Option<Rec>): multiset<Rec> {
    if err != OK then before
    else match q
      case Put(ns, typ, key, v) => if Skips(was, typ, v) then before
        else Updated(before, was, RecOf(ns, typ, key, v, CHUNK_ANY))
      case Remove(_, _, _) => if was.Some? then before - multiset{was.value} else before
  }

  lemma {:induction false} UsedAtLeast(rams: seq<Ram>, img: seq<FPage>, list: seq<nat>, free: seq<nat>, next: nat,
                                       hashOf: Id -> nat, k: nat, u: int)
    requires InOrder(rams, img, list, free, next, hashOf) && k <= |list|
    requires forall j :: 0 <= j < |list| ==> list[j] < |rams| && rams[list[j]].used >= u
    ensures |rams| == |img| && (forall j :: 0 <= j < |list| ==> list[j] < |img|)
      && SpanSum(ListRecs(img, list, k)) >= (|list| - k) * u
    decreases |list| - k
  {
    hide InOrder, ListRecs, SpanSum;
    InRange(rams, img, list, free, next, hashOf);
    if k == |list| {
      NoMoreRecs(img, list, k);
    } else {
      ListedSum(rams, img, list, free, next, hashOf, k);
      UsedAtLeast(rams, img, list, free, next, hashOf, k + 1, u);
      assert (|list| - k) * u == (|list| - k - 1) * u + u;
    }
  }

  // A write finds no room only on a crowded store.
  lemma NoRoomIsCrowded(rams: seq<Ram>, img: seq<FPage>, list: seq<nat>, free: seq<nat>, next: nat, hashOf: Id -> nat,
                        m: nat)
    requires InOrder(rams, img, list, free, next, hashOf) && !Room(rams, list, free, m)
    ensures Crowded(Live(img), |img|, m)
  {
    hide InOrder, ListRecs, SpanSum, Live;
    InRange(rams, img, list, free, next, hashOf);
    ListPartition(rams, img, list, free, next, hashOf);
    UsedAtLeast(rams, img, list, free, next, hashOf, 0, 127 - m);
    AllAreListed(rams, img, list, free, next, hashOf);
  }

  // hist[k] are the records after the first k requests.
  ghost predicate History(hist: seq<multiset<Rec>>, requests: seq<Request>, answers: seq<Error>, n: nat) {
    && |answers| <= |requests| && |hist| == |answers| + 1
    && forall k :: 0 <= k < |answers| ==> Answered(hist[k], requests[k], answers[k], hist[k + 1], n)
  }

  // These records are on flash. The store comes up with exactly them if and only if the image is kept.
  ghost predicate Pending(c: seq<FPage>, live: multiset<Rec>, requests: seq<Request>) {
    Recoverable(c, live) && Orderly(live, requests)
  }

  // The image is one that losing power during request number i can leave: all requests before it
  // have had their effect, it has or has not, and none after it has.
  ghost predicate During(c: seq<FPage>, hist: seq<multiset<Rec>>, i: nat, requests: seq<Request>) {
    && i + 1 < |hist|
    && (Pending(c, hist[i], requests) || Pending(c, hist[i + 1], requests))
  }

  // marks[i] are the images that losing power before request number i could have left.
  ghost predicate Marked(marks: seq<iset<seq<FPage>>>, hist: seq<multiset<Rec>>, requests: seq<Request>) {
    && |marks| == |hist|
    && forall i, c :: 0 <= i < |marks| - 1 && c in marks[i + 1] && c !in marks[i] ==> During(c, hist, i, requests)
  }

  lemma OrderlyMeans(live: multiset<Rec>, requests: seq<Request>)
    requires Orderly(live, requests)
    ensures Identified(live) && Tidy(live) && Unique(live) && forall r :: r in live ==> WritableId(r.item)
  {
    hide Tidy;
  }

  lemma OrderlyHas(live: multiset<Rec>, requests: seq<Request>, q: Request)
    requires Orderly(live, requests) && q in requests
    ensures NoBlob(live, q.ns, Truncated(q.key))
    ensures forall r :: r in live && OfName(r, q.ns, Truncated(q.key)) ==> FitsRequest(r, q)
  {
    hide Tidy, Identified;
  }

  lemma NewFits(live: multiset<Rec>, requests: seq<Request>, q: Request, was: Option<Rec>, n: Rec)
    requires Typed(live, requests) && q in requests && RequestOk(q) && OneTypeEach(requests) && q.Put?
      && n == RecOf(q.ns, q.typ, q.key, q.v, CHUNK_ANY)
    requires |q.key| <= MAX_KEY_LENGTH
    ensures OfName(n, q.ns, Truncated(q.key)) && PlainType(n.item.typ) && WritableId(n.item)
      && Typed(Updated(live, was, n), requests)
  {
  }

  lemma PutStaysOrderly(live: multiset<Rec>, requests: seq<Request>, q: Request, was: Option<Rec>)
    requires Orderly(live, requests) && q in requests && RequestOk(q) && OneTypeEach(requests)
    requires RecordOf(live, q.ns, Truncated(q.key), was) && q.Put? && !Skips(was, q.typ, q.v)
      && |q.key| <= MAX_KEY_LENGTH
    ensures Orderly(Updated(live, was, RecOf(q.ns, q.typ, q.key, q.v, CHUNK_ANY)), requests)
  {
    hide SameValue, Tidy, Unique, NoStrays, Typed, RecOf;
    var n := RecOf(q.ns, q.typ, q.key, q.v, CHUNK_ANY);
    OrderlyHas(live, requests, q);
    IsUnique(live);
    NewFits(live, requests, q, was, n);
    IsNew(live, q, was, n);
    UpdateStaysTidy(live, was, n, q.ns, Truncated(q.key));
    assert forall r :: r in Updated(live, was, n) ==> r in live || r == n;
  }

  // A value that is not skipped makes a record that is not there yet, and the only one of its name.
  lemma IsNew(live: multiset<Rec>, q: Request, was: Option<Rec>, n: Rec)
    requires Unique(live) && NoBlob(live, q.ns, Truncated(q.key)) && (forall r :: r in live ==> WritableId(r.item))
      && RequestOk(q) && q.Put?
    requires RecordOf(live, q.ns, Truncated(q.key), was) && !Skips(was, q.typ, q.v)
      && n == RecOf(q.ns, q.typ, q.key, q.v, CHUNK_ANY)
    requires OfName(n, q.ns, Truncated(q.key)) && WritableId(n.item) && PlainType(n.item.typ)
    ensures n !in live && Unique(Updated(live, was, n))
  {
    hide SameValue;
    SameAsItself(q.ns, q.typ, q.key, q.v);
    forall r | r in live && OfName(r, q.ns, Truncated(q.key)) ensures was == Some(r) {
      assert IdOf(r.item) == IdOf(was.value.item);
    }
    assert n !in live;
  }

  lemma RemoveStaysOrderly(live: multiset<Rec>, requests: seq<Request>, q: Request, o: Rec)
    requires Orderly(live, requests) && q in requests && RecordOf(live, q.ns, Truncated(q.key), Some(o))
    ensures Orderly(live - multiset{o}, requests)
  {
    hide Tidy, Identified;
    OrderlyHas(live, requests, q);
    RemovalStaysTidy(live, o);
    assert forall r :: r in live - multiset{o} ==> r in live;
  }

  lemma StaysOrderly(live: multiset<Rec>, requests: seq<Request>, q: Request, err: Error, was: Option<Rec>, n: nat)
    requires Orderly(live, requests) && q in requests && RequestOk(q) && OneTypeEach(requests)
    requires RecordOf(live, q.ns, Truncated(q.key), was) && AnswerOk(live, q, err, was, n)
    ensures Orderly(Outcome(live, q, err, was), requests)
  {
    hide Orderly, Skips, Crowded;
    if err == OK {
      if q.Put? && !Skips(was, q.typ, q.v) {
        PutStaysOrderly(live, requests, q, was);
      } else if q.Remove? && was.Some? {
        RemoveStaysOrderly(live, requests, q, was.value);
      }
    }
  }

  // ---------------------------------------------------------------- running

  lemma OneMore(hist: seq<multiset<Rec>>, requests: seq<Request>, answers: seq<Error>, err: Error, after: multiset<Rec>,
                n: nat)
    requires History(hist, requests, answers, n) && |answers| < |requests|
    requires Answered(hist[|answers|], requests[|answers|], err, after, n)
    ensures History(hist + [after], requests, answers + [err], n)
  {
    hide Answered;
    var h, a := hist + [after], answers + [err];
    forall k | 0 <= k < |a| ensures Answered(h[k], requests[k], a[k], h[k + 1], n) {
      if k < |answers| {
        assert Answered(hist[k], requests[k], answers[k], hist[k + 1], n);
      }
    }
  }

  lemma OneMoreMark(marks: seq<iset<seq<FPage>>>, cuts: iset<seq<FPage>>, hist: seq<multiset<Rec>>,
                    after: multiset<Rec>, requests: seq<Request>)
    requires Marked(marks, hist, requests) && marks != []
    requires forall c :: c in cuts && c !in marks[|marks| - 1] ==>
      Pending(c, hist[|hist| - 1], requests) || Pending(c, after, requests)
    ensures Marked(marks + [cuts], hist + [after], requests)
  {
    hide Pending;
    var m, h := marks + [cuts], hist + [after];
    forall i, c | 0 <= i < |m| - 1 && c in m[i + 1] && c !in m[i] ensures During(c, h, i, requests) {
      if i < |marks| - 1 {
        assert marks[i + 1] == m[i + 1] && marks[i] == m[i];
        assert During(c, hist, i, requests);
      }
    }
  }

  lemma IsAnswered(live: multiset<Rec>, q: Request, err: Error, was: Option<Rec>, after: multiset<Rec>, n: nat)
    requires RecordOf(live, q.ns, Truncated(q.key), was) && AnswerOk(live, q, err, was, n)
      && after == Outcome(live, q, err, was)
    ensures Answered(live, q, err, after, n)
  {
  }

  // If no page held two chunks of a key, none does afterwards or in between.
  ghost predicate StaysApart(s: Storage, img: seq<FPage>, cuts0: iset<seq<FPage>>)
    reads s, s.pm, s.pm.dev
  {
    ChunksApart(img) ==> ChunksApart(s.pm.dev.pages) && forall c :: c in s.pm.dev.cuts && c !in cuts0 ==> ChunksApart(c)
  }

  lemma PutIsAnswered(rams: seq<Ram>, img: seq<FPage>, list: seq<nat>, free: seq<nat>, next: nat, hashOf: Id -> nat,
                      q: Request, err: Error, was: Option<Rec>)
    requires InOrder(rams, img, list, free, next, hashOf) && q.Put?
    requires if Skips(was, q.typ, q.v) then err == OK else WriteAnswer(err, rams, list, free, q.typ, q.key, q.v)
    ensures AnswerOk(Live(img), q, err, was, |img|)
  {
    hide InOrder, Crowded, Live, Skips, SpanFor, Room, SizeOk, SizeError;
    if !Room(rams, list, free, SpanFor(q.typ, q.v)) {
      NoRoomIsCrowded(rams, img, list, free, next, hashOf, SpanFor(q.typ, q.v));
    }
    if !Room(rams, list, free, 1) {
      NoRoomIsCrowded(rams, img, list, free, next, hashOf, 1);
    }
  }

  method Serve(s: Storage, q: Request, ghost requests: seq<Request>) returns (err: Error)
    requires s.Valid() && Orderly(s.Records(), requests) && q in requests && RequestOk(q) && OneTypeEach(requests)
    modifies s.pm, s.pm.dev, s.pm.Objects()
    ensures s.Valid() && s.pm.pages == old(s.pm.pages) && Orderly(s.Records(), requests)
      && Answered(old(s.Records()), q, err, s.Records(), |s.pm.pages|)
    ensures forall c :: c in s.pm.dev.cuts && c !in old(s.pm.dev.cuts) ==>
      Pending(c, old(s.Records()), requests) || Pending(c, s.Records(), requests)
    ensures StaysApart(s, old(s.pm.dev.pages), old(s.pm.dev.cuts))
  {
    hide Orderly, ChunksApart, Recoverable, Live, Skips, Storage.Valid, Unique, NoBlob, OneTypeEach, FitsRequest,
      Identified, Tidy, WritableId, WriteAnswer, Crowded, InOrder, SizeOk, SizeError, SpanFor, Updated;
    ghost var live := s.Records();
    OrderlyMeans(live, requests);
    OrderlyHas(live, requests, q);
    ghost var was: Option<Rec>;
    ghost var rams, img, list, free := s.pm.Rams(), s.pm.dev.pages, s.pm.pageList, s.pm.freeList;
    PagesCounted(s);
    match q {
      case Put(ns, typ, key, v) =>
        HasType(live, q);
        err, was := s.WriteItem(ns, typ, key, v, None);
        PutIsAnswered(rams, img, list, free, old(s.pm.seqNumber), s.pm.hashOf, q, err, was);
      case Remove(ns, typ, key) =>
        err, was := s.EraseItem(ns, typ, key, None);
    }
    StaysOrderly(live, requests, q, err, was, |s.pm.pages|);
    IsAnswered(live, q, err, was, s.Records(), |s.pm.pages|);
  }

  lemma PagesCounted(s: Storage)
    requires s.Valid()
    ensures |s.pm.pages| == |s.pm.dev.pages|
      && InOrder(s.pm.Rams(), s.pm.dev.pages, s.pm.pageList, s.pm.freeList, s.pm.seqNumber, s.pm.hashOf)
  {
    hide HashList.Valid, InOrder, PageManager.HashListsOk;
  }

  lemma HasType(live: multiset<Rec>, q: Request)
    requires q.Put? && forall r :: r in live && OfName(r, q.ns, Truncated(q.key)) ==> FitsRequest(r, q)
    ensures forall r :: r in live && OfName(r, q.ns, Truncated(q.key)) ==> r.item.typ == q.typ
  {
  }

  // Answers requests one after the other. Power that fails during one of them leaves on flash the
  // effect of exactly the requests before it, or of those and it.
  method Run(s: Storage, requests: seq<Request>, ghost all: seq<Request>)
    returns (answers: seq<Error>, ghost hist: seq<multiset<Rec>>, ghost marks: seq<iset<seq<FPage>>>)
    requires s.Valid() && Orderly(s.Records(), all)
    requires (forall q :: q in requests ==> q in all) && (forall q :: q in all ==> RequestOk(q)) && OneTypeEach(all)
    modifies s.pm, s.pm.dev, s.pm.Objects()
    ensures s.Valid() && s.pm.pages == old(s.pm.pages) && |answers| == |requests|
      && History(hist, requests, answers, |s.pm.pages|)
    ensures hist[0] == old(s.Records()) && hist[|requests|] == s.Records() && Orderly(s.Records(), all)
    ensures |marks| == |requests| + 1 && Marked(marks, hist, all) && marks[0] == old(s.pm.dev.cuts)
      && marks[|requests|] == s.pm.dev.cuts
    ensures StaysApart(s, old(s.pm.dev.pages), old(s.pm.dev.cuts))
  {
    hide Orderly, ChunksApart, Recoverable, Live, Answered, Outcome, Storage.Valid, Marked, OneTypeEach, RequestOk;
    answers, hist, marks := [], [s.Records()], [s.pm.dev.cuts];
    NoMarks(marks, hist, all);
    var i := 0;
    while i < |requests|
      invariant i <= |requests| && |answers| == i && History(hist, requests, answers, |s.pm.pages|) && |marks| == i + 1
      invariant s.Valid() && s.pm.pages == old(s.pm.pages) && StaysApart(s, old(s.pm.dev.pages), old(s.pm.dev.cuts))
      invariant hist[0] == old(s.Records()) && hist[i] == s.Records() && Orderly(s.Records(), all)
      invariant Marked(marks, hist, all) && marks[0] == old(s.pm.dev.cuts) && marks[i] == s.pm.dev.cuts
    {
      var err := Serve(s, requests[i], all);
      OneMore(hist, requests, answers, err, s.Records(), |s.pm.pages|);
      OneMoreMark(marks, s.pm.dev.cuts, hist, s.Records(), all);
      answers, hist, marks, i := answers + [err], hist + [s.Records()], marks + [s.pm.dev.cuts], i + 1;
    }
  }

  lemma NoMarks(marks: seq<iset<seq<FPage>>>, hist: seq<multiset<Rec>>, requests: seq<Request>)
    requires |marks| == |hist| == 1
    ensures Marked(marks, hist, requests)
  {
  }

  // Power is back, and the store starts. It comes up with exactly the records there were if and only
  // if the image is kept; then, if power fails again on the way, they are still there the next time.
  method Restart(img: seq<FPage>, hashOf: Id -> nat, crcOf: seq<byte> -> nat, ghost live: multiset<Rec>,
                 ghost all: seq<Request>) returns (s: Storage)
    requires Pending(img, live, all)
    ensures s.Valid() && s.pm.hashOf == hashOf && fresh(s) && fresh(s.pm) && fresh(s.pm.dev) && fresh(s.pm.Objects())
    ensures s.Records() == live <==> Kept(img, hashOf)
    ensures Sparse(live, hashOf) ==> (s.Records() == live <==> !Shadows(img, live))
    ensures Kept(img, hashOf) ==> forall c :: c in s.pm.dev.cuts ==> Pending(c, live, all)
    ensures Kept(img, hashOf) && ChunksApart(img) ==>
      ChunksApart(s.pm.dev.pages) && forall c :: c in s.pm.dev.cuts ==> ChunksApart(c)
  {
    hide ChunksApart, Recoverable, Live, Orderly, Storage.Valid, Identified, Tidy, Kept, Shadows, Sparse;
    OrderlyMeans(live, all);
    s := StartOn(img, hashOf, crcOf, live);
  }

  // From one start to the next loss of power, on an image that is kept: whatever image is left, the
  // history of what the requests answered so far have done is on it.
  method Life(img: seq<FPage>, hashOf: Id -> nat, crcOf: seq<byte> -> nat, requests: seq<Request>,
              ghost live: multiset<Rec>, ghost all: seq<Request>)
    returns (s: Storage, answers: seq<Error>, ghost hist: seq<multiset<Rec>>,
            ghost marks: seq<iset<seq<FPage>>>)
    requires Pending(img, live, all) && Kept(img, hashOf)
    requires (forall q :: q in requests ==> q in all) && (forall q :: q in all ==> RequestOk(q)) && OneTypeEach(all)
    ensures History(hist, requests, answers, |s.pm.pages|) && |answers| == |requests| && hist[0] == live
      && hist[|requests|] == s.Records()
    ensures |marks| == |requests| + 1 && Marked(marks, hist, all) && forall c :: c in marks[0] ==> Pending(c, live, all)
    ensures marks[|requests|] == s.pm.dev.cuts && s.Valid() && Pending(s.pm.dev.pages, s.Records(), all)
    ensures forall c :: c in s.pm.dev.cuts ==> SomeLife(c, hist, all)
    ensures ChunksApart(img) ==> forall c :: c in s.pm.dev.cuts ==> ChunksApart(c)
  {
    hide Orderly, ChunksApart, Recoverable, Live, OneTypeEach, RequestOk, Storage.Valid, Marked, History, Pending, Kept,
      Shadows, Sparse;
    s := Restart(img, hashOf, crcOf, live, all);
    PendingIsOrderly(img, live, all);
    answers, hist, marks := Run(s, requests, all);
    ValidIsPending(s, all);
    forall c: seq<FPage> | c in s.pm.dev.cuts ensures SomeLife(c, hist, all) {
      MarkedIsPending(marks, hist, |requests|, c, all);
    }
  }

  lemma PendingIsOrderly(c: seq<FPage>, live: multiset<Rec>, all: seq<Request>)
    requires Pending(c, live, all)
    ensures Orderly(live, all)
  {
  }

  // The effect of some of the requests, from the first on, is there.
  ghost predicate SomeLife(c: seq<FPage>, hist: seq<multiset<Rec>>, all: seq<Request>) {
    exists k :: 0 <= k < |hist| && Pending(c, hist[k], all)
  }

  lemma {:induction false} MarkedIsPending(marks: seq<iset<seq<FPage>>>, hist: seq<multiset<Rec>>, n: nat,
                                           c: seq<FPage>, all: seq<Request>)
    requires Marked(marks, hist, all) && n < |marks| && c in marks[n]
    requires forall d :: d in marks[0] ==> Pending(d, hist[0], all)
    ensures SomeLife(c, hist, all)
  {
    hide Pending;
    if n > 0 {
      if c in marks[n - 1] {
        MarkedIsPending(marks, hist, n - 1, c, all);
      } else {
        assert During(c, hist, n - 1, all);
      }
    }
  }

  lemma ValidIsPending(s: Storage, all: seq<Request>)
    requires s.Valid() && Orderly(s.Records(), all)
    ensures Pending(s.pm.dev.pages, s.Records(), all)
  {
    hide HashList.Valid, Orderly, Live, RamsOk, PageManager.Wired, PageManager.HashListsOk;
    InOrderIsStable(s.pm.Rams(), s.pm.dev.pages, s.pm.pageList, s.pm.freeList, s.pm.seqNumber, s.pm.hashOf);
  }

  // ---------------------------------------------------------------- when nothing is ever lost

  // The names that occur, none sharing its hash with another.
  ghost predicate Known(live: multiset<Rec>, ids: set<Id>, hashOf: Id -> nat) {
    && (forall r :: r in live ==> IdOf(r.item) in ids)
    && forall a, b :: a in ids && b in ids && hashOf(a) == hashOf(b) ==> a == b
  }

  ghost predicate Named(requests: seq<Request>, ids: set<Id>) {
    forall q :: q in requests ==> Id(q.ns, Truncated(q.key), CHUNK_ANY) in ids
  }

  lemma AnsweredStaysKnown(before: multiset<Rec>, q: Request, err: Error, after: multiset<Rec>, n: nat,
                           ids: set<Id>, hashOf: Id -> nat)
    requires Known(before, ids, hashOf) && Answered(before, q, err, after, n)
      && Id(q.ns, Truncated(q.key), CHUNK_ANY) in ids
    ensures Known(after, ids, hashOf)
  {
    hide Skips;
  }

  lemma {:induction false} HistoryStaysKnown(hist: seq<multiset<Rec>>, requests: seq<Request>, answers: seq<Error>,
                                             n: nat, k: nat, ids: set<Id>, hashOf: Id -> nat)
    requires History(hist, requests, answers, n) && Known(hist[0], ids, hashOf) && Named(requests, ids) && k < |hist|
    ensures Known(hist[k], ids, hashOf)
  {
    hide Answered, Known;
    if k > 0 {
      HistoryStaysKnown(hist, requests, answers, n, k - 1, ids, hashOf);
      AnsweredStaysKnown(hist[k - 1], requests[k - 1], answers[k - 1], hist[k], n, ids, hashOf);
    }
  }

  // If the names that occur have different hashes and no page holds two chunks of a key, every image
  // is kept: the next life always starts with the records of this one.
  lemma KnownIsKept(c: seq<FPage>, live: multiset<Rec>, all: seq<Request>, ids: set<Id>, hashOf: Id -> nat)
    requires Pending(c, live, all) && Known(live, ids, hashOf) && ChunksApart(c)
    ensures Kept(c, hashOf)
  {
    hide Recoverable, ChunksApart, Kept, Tidy;
    assert Sparse(live, hashOf);
    ApartIsKept(c, live, hashOf);
  }
}
