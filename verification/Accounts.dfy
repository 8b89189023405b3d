/**
 * What a caller is owed for each operation, told from what happened to it alone: the responses the server sent while
 * it was in progress, and what ended it. The response queue and the operation list deliver exactly that.
 */
module Accounts {
  import opened StreamSpec
  import opened OpSpec
  import opened Results

  /** What ended an operation; the last cancellation before its last result is read counts. */
  datatype Fate<+T> =
    | Undecided
    | WasCancelled
    | HasFailed(err: nat)
    | WasFinished(last: Option<T>)
    | WasRefused(err: nat)

  /** `began` once the server has responded; `sent` are the items of its responses. */
  datatype Account<+T> = Account(id: int, began: bool, sent: seq<T>, fate: Fate<T>)

  type Accounts<+T> = seq<Account<T>>

  function Opening<T>(id: int, cancelled: bool): Account<T> {
    Account(id, false, [], if cancelled then WasCancelled else Undecided)
  }

  /** Only the last operation can be in progress. */
  predicate Active<T>(accounts: Accounts<T>) {
    accounts != [] && accounts[|accounts| - 1].fate.Undecided?
  }

  predicate ActiveIs<T>(accounts: Accounts<T>, id: int) {
    Active(accounts) && accounts[|accounts| - 1].id == id
  }

  function Credit<T>(a: Account<T>, items: seq<T>, fin: Finish<T>): Account<T> {
    var fate := match fin
      case Going => Undecided
      case Done(last) => WasFinished(last)
      case Refused(err) => WasRefused(err);
    Account(a.id, true, a.sent + items, fate)
  }

  /** A response counts while its operation is in progress. */
  function Answered<T>(accounts: Accounts<T>, id: int, items: seq<T>, fin: Finish<T>): Accounts<T> {
    if !ActiveIs(accounts, id) then accounts
    else accounts[|accounts| - 1 := Credit(accounts[|accounts| - 1], items, fin)]
  }

  /** A failure ends the operation in progress. */
  function Broken<T>(accounts: Accounts<T>, err: nat): Accounts<T> {
    if !Active(accounts) then accounts
    else accounts[|accounts| - 1 := accounts[|accounts| - 1].(fate := HasFailed(err))]
  }

  /** The first operation with the id that was not told yet, or each of them. */
  ghost predicate Reached<T>(accounts: Accounts<T>, told: nat, id: int, k: nat) {
    && told <= k < |accounts|
    && (id <= 0 || (accounts[k].id == id && forall i | told <= i < k :: accounts[i].id != id))
  }

  ghost function Stopped<T>(accounts: Accounts<T>, told: nat, id: int): (r: Accounts<T>)
    ensures |r| == |accounts|
  {
    seq(|accounts|, k requires 0 <= k < |accounts| =>
      if Reached(accounts, told, id, k) then accounts[k].(fate := WasCancelled) else accounts[k])
  }

  function StoppedAt<T>(accounts: Accounts<T>, told: nat, k: nat): Accounts<T> {
    if told <= k < |accounts| then accounts[k := accounts[k].(fate := WasCancelled)] else accounts
  }

  /** The last result of an operation: of an error the server refused it with, 16 bits are kept. */
  function Verdict<T>(a: Account<T>): Popped<T> {
    match a.fate
    case Undecided => Empty
    case WasCancelled => Removed(a.id)
    case HasFailed(err) => Error(a.id, err)
    case WasFinished(last) => End(a.id, last)
    case WasRefused(err) => Error(a.id, err % 0x1_0000)
  }

  /**
   * All results of an operation: START and the first items the server sent, if it responded at all, and the verdict;
   * a finished one has all items.
   */
  ghost predicate Settles<T>(b: seq<Popped<T>>, a: Account<T>) {
    && b != [] && b[|b| - 1] == Verdict(a)
    && (b[..|b| - 1] == [] || (a.began && Opened(b[..|b| - 1], a.id)))
    && Items(b[..|b| - 1]) <= a.sent
    && (a.fate.WasFinished? ==> b[..|b| - 1] != [] && Items(b[..|b| - 1]) == a.sent)
  }

  /** The results so far of an operation that still has some to come. */
  ghost predicate Pays<T>(b: seq<Popped<T>>, a: Account<T>) {
    b == [] || (a.began && Opened(b, a.id) && Items(b) <= a.sent)
  }

  /** What the caller gets next of the operation being read, after `b`; `Empty` when there is nothing yet. */
  ghost predicate NextOwed<T>(p: Popped<T>, b: seq<Popped<T>>, a: Account<T>) {
    var n := |Items(b)|;
    if a.fate.WasCancelled? || a.fate.HasFailed? || a.fate.WasRefused? then p == Verdict(a)
    else if !a.began then p.Empty?
    else if b == [] then p == Start(a.id)
    else if n < |a.sent| then p == Data(a.id, a.sent[n])
    else p == Verdict(a)
  }

  // ---------------------------------------------------------------- the books are kept

  ghost predicate FateOk<T>(op: Op, fate: Fate<T>) {
    match op.status
    case Starting => fate.Undecided?
    case Streaming => fate.Undecided?
    case Cancelled => fate.WasCancelled?
    case Failed => fate == HasFailed(op.error)
    case Ended => fate.WasFinished? || fate.WasRefused?
  }

  /** The stream of responses of an operation that has ended. */
  ghost predicate TagOk<T>(s: Stream<T>, fate: Fate<T>) {
    match fate
    case WasFinished(last) => s.status.Completed? && s.content == last
    case WasRefused(err) => s.status.Failed? && s.err == err % 0x1_0000
    case _ => false
  }

  ghost predicate Facts<T>(op: Op, h: History<T>, a: Account<T>) {
    a.id == op.id && a.began == h.streamed && a.sent == h.accepted
  }

  ghost predicate Kept<T>(r: State<T>, accounts: Accounts<T>) {
    && r.Valid() && |accounts| == |r.ctl.ops| && |Verdicts(r.log)| == r.ctl.front
    && (forall k | 0 <= k < |accounts| :: Facts(r.ctl.ops[k], r.hist[k], accounts[k]))
    && (forall k | r.ctl.front <= k < |accounts| :: FateOk(r.ctl.ops[k], accounts[k].fate))
    && (forall j, k | 0 <= j < |r.tags| && r.ctl.front <= k < |accounts| &&
                      r.tags[j].id == accounts[k].id && r.ctl.ops[k].status.Ended? ::
          TagOk(r.tags[j], accounts[k].fate))
    && (forall k | 0 <= k < r.ctl.front :: !accounts[k].fate.Undecided? && Verdicts(r.log)[k] == Verdict(accounts[k]))
  }

  lemma InitKept<T>()
    ensures Kept<T>(State(Ctl([], 0, NoOp), [], [], []), [])
  {
  }

  /** The operation in progress is the current one. */
  lemma ActiveIsCurrent<T>(r: State<T>, w: Witness<T>, accounts: Accounts<T>)
    requires Inv(r, w) && Kept(r, accounts)
    ensures Active(accounts) <==> r.ctl.current.At?
    ensures r.ctl.current.At? ==> r.ctl.front <= r.ctl.current.k == |accounts| - 1
    ensures forall id :: ActiveIs(accounts, id) <==> r.ctl.IsCurrent(id)
  {
    hide Told, Flat, WellFormed, Owned, OwnIds, Verdicts, TagOk;
    var n := |accounts| - 1;
    if accounts != [] {
      assert Facts(r.ctl.ops[n], r.hist[n], accounts[n]);
      assert r.ctl.current != At(n) ==> !Live(r.ctl.ops[n]);
    }
  }

  lemma CreateKept<T>(r: State<T>, accounts: Accounts<T>, id: int, status: OpSpec.Status)
    requires Kept(r, accounts) && (status.Starting? || status.Cancelled?)
    ensures Kept(Create(r, id, status), accounts + [Opening(id, status.Cancelled?)])
  {
    hide Verdicts, TagOk;
  }

  lemma FailKept<T>(r: State<T>, w: Witness<T>, accounts: Accounts<T>, err: nat)
    requires Inv(r, w) && Kept(r, accounts)
    ensures Kept(Fail(r, err), Broken(accounts, err))
  {
    hide Inv, Verdicts, TagOk;
    ActiveIsCurrent(r, w, accounts);
  }

  lemma ReachedIsHit<T>(c: Ctl, accounts: Accounts<T>, id: int, k: nat)
    requires c.Valid() && |accounts| == |c.ops| && forall i | 0 <= i < |c.ops| :: accounts[i].id == c.ops[i].id
    ensures Reached(accounts, c.front, id, k) <==> Hit(c, id, k)
  {
  }

  lemma CancelKept<T>(r: State<T>, accounts: Accounts<T>, id: int)
    requires Kept(r, accounts)
    ensures Kept(Cancel(r, id), Stopped(accounts, r.ctl.front, id))
  {
    hide Verdicts, TagOk, Hit, Reached;
    forall i | 0 <= i < |r.ctl.ops| ensures accounts[i].id == r.ctl.ops[i].id {
      assert Facts(r.ctl.ops[i], r.hist[i], accounts[i]);
    }
    forall k | 0 <= k < |accounts| ensures Reached(accounts, r.ctl.front, id, k) <==> Hit(r.ctl, id, k) {
      ReachedIsHit(r.ctl, accounts, id, k);
    }
    forall k | 0 <= k < r.ctl.front ensures !Hit(r.ctl, id, k) {
      NotHitYet(r.ctl, id, k);
    }
  }

  lemma NotHitYet(c: Ctl, id: int, k: nat)
    requires c.Valid() && k < c.front
    ensures !Hit(c, id, k)
  {
  }

  lemma CancelAtKept<T>(r: State<T>, accounts: Accounts<T>, k: nat)
    requires Kept(r, accounts) && k < |r.ctl.ops|
    ensures Kept(CancelAt(r, k), StoppedAt(accounts, r.ctl.front, k))
  {
    hide Verdicts, TagOk;
  }

  // ---------------------------------------------------------------- responses

  /** The same streams but for their data. */
  ghost predicate SameTags<T>(a: Streams<T>, b: Streams<T>) {
    |a| == |b| && forall j | 0 <= j < |a| ::
      b[j].id == a[j].id && b[j].status == a[j].status && b[j].content == a[j].content && b[j].err == a[j].err
  }

  lemma {:induction false} AddItemsFacts<T>(r: State<T>, items: seq<T>)
    requires r.Valid() && r.ctl.current.At?
    ensures var r', k := AddItems(r, items), r.ctl.current.k;
      && r'.ctl == r.ctl && r'.log == r.log && SameTags(r.tags, r'.tags)
      && r'.hist == r.hist[k := r.hist[k].(accepted := r.hist[k].accepted + items)]
    decreases |items|
  {
    var k := r.ctl.current.k;
    if items == [] {
      assert r.hist[k].accepted + [] == r.hist[k].accepted;
    } else {
      AddItemsFacts(AddItem(r, items[0]), items[1..]);
      assert r.hist[k].accepted + [items[0]] + items[1..] == r.hist[k].accepted + items;
    }
  }

  /** After the stream is open and the items are in it. */
  lemma OpenedKept<T>(r: State<T>, w: Witness<T>, accounts: Accounts<T>, items: seq<T>)
    requires Inv(r, w) && Kept(r, accounts) && r.ctl.current.At?
    ensures var r', k := AddItems(OpenStream(r), items), r.ctl.current.k;
      && r'.Valid() && k == |accounts| - 1 && r.ctl.front <= k && accounts[k].fate.Undecided?
      && r'.ctl.current == r.ctl.current && r'.ctl.ops[k].status.Streaming?
      && Kept(r', accounts[k := Credit(accounts[k], items, Going)])
  {
    hide Told, Flat, WellFormed, Verdicts, Index, Begin, Owned, OwnIds;
    ActiveIsCurrent(r, w, accounts);
    var r1, k := OpenStream(r), r.ctl.current.k;
    AddItemsFacts(r1, items);
    assert Facts(r.ctl.ops[k], r.hist[k], accounts[k]) && FateOk(r.ctl.ops[k], accounts[k].fate);
    if r.ctl.ops[k].status.Starting? {
      NewTag(r, w);
      NewTagLast(r.tags, r.ctl.ops[k].id);
    } else {
      CurrentTag(r, w);
    }
    OpenedTags(r, w, accounts, AddItems(r1, items));
  }

  lemma NewTagLast<T>(q: Streams<T>, id: int)
    requires !Has(q, id)
    ensures Begin(q, id) == q + [Stream(id, false, Open, 0, [], None)]
  {
  }

  /** The streams of the operations that ended are not touched. */
  lemma OpenedTags<T>(r: State<T>, w: Witness<T>, accounts: Accounts<T>, r': State<T>)
    requires Inv(r, w) && Kept(r, accounts) && r.ctl.current.At? && r'.Valid()
    requires r'.ctl == OpenStream(r).ctl && SameTags(OpenStream(r).tags, r'.tags)
    ensures forall j, k | 0 <= j < |r'.tags| && r.ctl.front <= k < |accounts| - 1 &&
                          r'.tags[j].id == accounts[k].id && r'.ctl.ops[k].status.Ended? ::
              TagOk(r'.tags[j], accounts[k].fate)
  {
    hide Told, Flat, WellFormed, Verdicts, Index, TagOk, Owned, OwnIds;
    ActiveIsCurrent(r, w, accounts);
    var c := r.ctl.current.k;
    InvParts(r, w);
    LiveOwnsId(r, w);
    if r.ctl.ops[c].status.Starting? {
      NewTag(r, w);
      NewTagLast(r.tags, r.ctl.ops[c].id);
    }
    forall j, k | 0 <= j < |r'.tags| && r.ctl.front <= k < c &&
                  r'.tags[j].id == accounts[k].id && r'.ctl.ops[k].status.Ended?
      ensures TagOk(r'.tags[j], accounts[k].fate)
    {
      assert Facts(r.ctl.ops[k], r.hist[k], accounts[k]) && r'.ctl.ops[k] == r.ctl.ops[k];
      assert j < |r.tags| && TagOk(r.tags[j], accounts[k].fate);
      SameTagOk(r.tags[j], r'.tags[j], accounts[k].fate);
    }
  }

  lemma SameTagOk<T>(a: Stream<T>, b: Stream<T>, fate: Fate<T>)
    requires b.status == a.status && b.content == a.content && b.err == a.err && TagOk(a, fate)
    ensures TagOk(b, fate)
  {
  }

  lemma InvParts<T>(r: State<T>, w: Witness<T>)
    requires Inv(r, w)
    ensures r.Valid() && CurrentOk(r.ctl) && OwnIds(r.ctl.ops, r.hist) && Owned(r, w) && WellFormed(r.tags)
  {
  }

  function CloseAccount<T>(a: Account<T>, fin: Finish<T>): Account<T> {
    Credit(a, [], fin).(began := a.began)
  }

  lemma GoingAccount<T>(a: Account<T>)
    requires a.fate.Undecided?
    ensures CloseAccount(a, Going) == a
  {
    assert a.sent + [] == a.sent;
  }

  /** Ending one stream leaves those of the other operations as they are. */
  lemma OtherTags<T>(r: State<T>, w: Witness<T>, accounts: Accounts<T>, q: Streams<T>, a: Account<T>)
    requires Inv(r, w) && Kept(r, accounts) && r.ctl.current.At? && accounts != []
    requires var n, id := |r.tags| - 1, accounts[|accounts| - 1].id;
      && |q| == |r.tags| > 0 && a.id == id && q[n].id == id && TagOk(q[n], a.fate)
      && forall j | 0 <= j < |q| && j != n :: q[j] == r.tags[j] && q[j].id != id
    ensures forall j, i | 0 <= j < |q| && r.ctl.front <= i < |accounts| &&
                          q[j].id == accounts[|accounts| - 1 := a][i].id &&
                          (i == |accounts| - 1 || r.ctl.ops[i].status.Ended?) ::
              TagOk(q[j], accounts[|accounts| - 1 := a][i].fate)
  {
    hide Told, Flat, Verdicts, Owned, OwnIds, WellFormed, TagOk;
    ActiveIsCurrent(r, w, accounts);
    InvParts(r, w);
    LiveOwnsId(r, w);
    var k := |accounts| - 1;
    forall i | 0 <= i < k ensures accounts[i].id != accounts[k].id {
      assert Facts(r.ctl.ops[i], r.hist[i], accounts[i]) && Facts(r.ctl.ops[k], r.hist[k], accounts[k]);
    }
  }

  /** The last response ends the operation and its stream. */
  lemma ClosedKept<T>(r: State<T>, w: Witness<T>, accounts: Accounts<T>, fin: Finish<T>)
    requires Inv(r, w) && Kept(r, accounts) && r.ctl.current.At? && r.ctl.ops[r.ctl.current.k].status.Streaming?
    requires fin.Refused? ==> fin.err != 0
    ensures var k := r.ctl.current.k;
      k == |accounts| - 1 && Kept(CloseStream(r, fin), accounts[k := CloseAccount(accounts[k], fin)])
  {
    hide Told, Flat, Verdicts, Owned, OwnIds, Opened, Items, WellFormed, Complete, Erase, TagOk;
    ActiveIsCurrent(r, w, accounts);
    InvParts(r, w);
    CurrentTag(r, w);
    var k, n := r.ctl.current.k, |r.tags| - 1;
    assert Facts(r.ctl.ops[k], r.hist[k], accounts[k]) && FateOk(r.ctl.ops[k], accounts[k].fate);
    assert accounts[k].sent + [] == accounts[k].sent;
    var a := CloseAccount(accounts[k], fin);
    if fin.Going? {
      GoingAccount(accounts[k]);
      assert accounts[k := a] == accounts;
    } else {
      ClosedTag(r.tags, n, accounts[k].id, fin, a.fate);
      OtherTags(r, w, accounts, CloseStream(r, fin).tags, a);
    }
  }

  lemma ClosedTag<T>(q: Streams<T>, n: nat, id: int, fin: Finish<T>, fate: Fate<T>)
    requires WellFormed(q) && n < |q| && Index(q, id) == n && q[n].status.Open? && q[n].content == None
    requires !fin.Going? && (fin.Refused? ==> fin.err != 0)
    requires fate == if fin.Done? then WasFinished(fin.last) else WasRefused(fin.err)
    ensures var q' := if fin.Done? then Complete(q, id, fin.last) else Erase(q, id, fin.err);
      && |q'| == |q| && TagOk(q'[n], fate)
      && (forall j | 0 <= j < |q| && j != n :: q'[j] == q[j] && q[j].id != id)
      && q'[n].id == id
  {
  }

  lemma RespondKept<T>(r: State<T>, w: Witness<T>, accounts: Accounts<T>, id: int, items: seq<T>, fin: Finish<T>)
    requires Inv(r, w) && Kept(r, accounts) && (fin.Refused? ==> fin.err != 0)
    ensures Kept(Respond(r, id, items, fin), Answered(accounts, id, items, fin))
  {
    hide Inv, Kept, OpenStream, AddItems, CloseStream;
    InvValid(r, w);
    ActiveIsCurrent(r, w, accounts);
    if r.ctl.IsCurrent(id) {
      var k := r.ctl.current.k;
      var w' := OpenedInv(r, w, items);
      OpenedKept(r, w, accounts, items);
      var accounts1 := accounts[k := Credit(accounts[k], items, Going)];
      ClosedKept(AddItems(OpenStream(r), items), w', accounts1, fin);
      CreditTwice(accounts[k], items, fin);
      assert accounts1[k := Credit(accounts[k], items, fin)] == accounts[k := Credit(accounts[k], items, fin)];
    }
  }

  lemma CreditTwice<T>(a: Account<T>, items: seq<T>, fin: Finish<T>)
    ensures var a1 := Credit(a, items, Going);
      CloseAccount(a1, fin) == Credit(a, items, fin)
  {
    assert a.sent + items + [] == a.sent + items;
  }

  lemma OpenedInv<T>(r: State<T>, w: Witness<T>, items: seq<T>) returns (w': Witness<T>)
    requires Inv(r, w) && r.ctl.current.At?
    ensures Inv(AddItems(OpenStream(r), items), w')
  {
    hide Inv;
    InvValid(r, w);
    var k := r.ctl.current.k;
    w' := w;
    if r.ctl.ops[k].status.Starting? {
      OpenKeeps(r, w);
      w' := Witness(w.blocks, w.owner + [k]);
    }
    AddItemsKeeps(OpenStream(r), w', items);
  }

  // ---------------------------------------------------------------- polling

  lemma VerdictsGrow<T>(log: seq<Popped<T>>, p: Popped<T>)
    ensures Verdicts(log + [p]) == if IsVerdict(p) then Verdicts(log) + [p] else Verdicts(log)
  {
    assert (log + [p])[..|log|] == log;
  }

  /** What the next poll returns is what the books say. */
  lemma NextIsOwed<T>(r: State<T>, w: Witness<T>, accounts: Accounts<T>)
    requires Inv(r, w) && Kept(r, accounts) && r.ctl.front < |r.ctl.ops|
    ensures r.ctl.front < |w.blocks| && NextOwed(Next(r), w.blocks[r.ctl.front], accounts[r.ctl.front])
  {
    hide Told, Flat, Verdicts, Owned, OwnIds, Opened, Items;
    var f := r.ctl.front;
    InvParts(r, w);
    OwnedSizes(r, w);
    FrontOwner(r, w);
    assert Facts(r.ctl.ops[f], r.hist[f], accounts[f]) && FateOk(r.ctl.ops[f], accounts[f].fate);
    if f in w.owner {
      var s, b := r.tags[0], w.blocks[f];
      if !Over(r.ctl.ops[f]) && !s.status.Failed? {
        if s.polling { OpenedSome(b, s.id); }
        assert Items(b) + s.data == accounts[f].sent;
        if b == [] { NoItems<T>(); }
      }
    } else if !Over(r.ctl.ops[f]) {
      assert r.tags == [];
    }
  }

  /** The results of an operation that is over are its verdict. */
  lemma SettledVerdict<T>(r: State<T>, w: Witness<T>, accounts: Accounts<T>)
    requires Inv(r, w) && Kept(r, accounts) && r.ctl.front < |r.ctl.ops| && IsVerdict(Next(r))
    ensures var a := accounts[r.ctl.front]; Next(r) == Verdict(a) && !a.fate.Undecided?
  {
    hide Inv, Kept, Items;
    NextIsOwed(r, w, accounts);
  }

  lemma RestTags<T>(q: Streams<T>)
    requires !Front(q).Empty?
    ensures q != [] && if IsVerdict(Front(q)) then Rest(q) == q[1..] else SameTags(q, Rest(q))
  {
  }

  /** The streams that are left after a poll were there before. */
  lemma PollTags<T>(r: State<T>, w: Witness<T>)
    requires Inv(r, w) && r.ctl.front < |r.ctl.ops| && !Next(r).Empty?
    ensures if IsVerdict(Next(r)) then forall j | 0 <= j < |Poll(r).tags| :: Poll(r).tags[j] in r.tags
            else SameTags(r.tags, Poll(r).tags)
  {
    hide Told, Flat, Owned, OwnIds, Index, Erase, Verdicts, Front, Rest, SameTags, Items, Opened, WellFormed;
    var f := r.ctl.front;
    InvParts(r, w);
    FrontOwner(r, w);
    if !Over(r.ctl.ops[f]) {
      RestTags(r.tags);
    } else if f in w.owner {
      InStepId(r.tags[0], r.ctl.ops[f], r.hist[f], w.blocks[f]);
      EraseFront(r.tags, r.ctl.ops[f].id);
    }
  }

  lemma PollKept<T>(r: State<T>, w: Witness<T>, accounts: Accounts<T>)
    requires Inv(r, w) && Kept(r, accounts)
    ensures r.Valid() && Kept(Poll(r), accounts)
  {
    hide Inv, TagsAfterPoll, Next, Verdicts, TagOk, FateOk, Facts;
    InvValid(r, w);
    if r.ctl.front < |r.ctl.ops| && !Next(r).Empty? {
      VerdictsGrow(r.log, Next(r));
      PollTags(r, w);
      if IsVerdict(Next(r)) {
        SettledVerdict(r, w, accounts);
      } else {
        PolledTags(r, accounts);
      }
    } else {
      PollNothing(r);
    }
  }

  lemma PollNothing<T>(r: State<T>)
    requires r.Valid() && (r.ctl.front == |r.ctl.ops| || Next(r).Empty?)
    ensures Poll(r) == r
  {
  }

  lemma PolledTags<T>(r: State<T>, accounts: Accounts<T>)
    requires Kept(r, accounts) && SameTags(r.tags, Poll(r).tags)
    ensures forall j, k | 0 <= j < |r.tags| && r.ctl.front <= k < |accounts| &&
                          Poll(r).tags[j].id == accounts[k].id && r.ctl.ops[k].status.Ended? ::
              TagOk(Poll(r).tags[j], accounts[k].fate)
  {
    hide Poll, Verdicts, TagOk;
    forall j, k | 0 <= j < |r.tags| && r.ctl.front <= k < |accounts| &&
                  Poll(r).tags[j].id == accounts[k].id && r.ctl.ops[k].status.Ended?
      ensures TagOk(Poll(r).tags[j], accounts[k].fate)
    {
      SameTagOk(r.tags[j], Poll(r).tags[j], accounts[k].fate);
    }
  }

  // ---------------------------------------------------------------- what the caller got

  lemma ToldSettles<T>(b: seq<Popped<T>>, id: int, h: History<T>, a: Account<T>)
    requires Told(b, id, h) && EndsWith(b, Verdict(a)) && a.id == id && a.began == h.streamed && a.sent == h.accepted
    ensures Settles(b, a)
  {
    hide Opened, Items;
  }

  lemma TellingPays<T>(b: seq<Popped<T>>, id: int, h: History<T>, a: Account<T>)
    requires Telling(b, id, h) && a.id == id && a.began == h.streamed && a.sent == h.accepted
    ensures Pays(b, a)
  {
    hide Opened, Items;
  }

  lemma BlocksSettle<T>(r: State<T>, w: Witness<T>, accounts: Accounts<T>)
    requires Inv(r, w) && Kept(r, accounts)
    ensures Flat(w.blocks) == r.log && |w.blocks| == |accounts| >= r.ctl.front
    ensures forall k | 0 <= k < r.ctl.front :: Settles(w.blocks[k], accounts[k])
    ensures r.ctl.front < |accounts| ==> Pays(w.blocks[r.ctl.front], accounts[r.ctl.front])
    ensures r.ctl.front < |accounts| ==> NextOwed(Next(r), w.blocks[r.ctl.front], accounts[r.ctl.front])
    ensures forall k | r.ctl.front < k < |accounts| :: w.blocks[k] == []
  {
    hide Told, Flat, WellFormed, OwnIds, Telling, NextOwed, Settles, Pays, Verdicts, TagOk, FateOk, EndsWith, Verdict;
    OneVerdictEach(r, w);
    forall k | 0 <= k < r.ctl.front ensures Settles(w.blocks[k], accounts[k]) {
      assert Facts(r.ctl.ops[k], r.hist[k], accounts[k]);
      ToldSettles(w.blocks[k], r.ctl.ops[k].id, r.hist[k], accounts[k]);
    }
    var f := r.ctl.front;
    if f < |accounts| {
      assert Facts(r.ctl.ops[f], r.hist[f], accounts[f]);
      FrontTelling(r, w);
      TellingPays(w.blocks[f], r.ctl.ops[f].id, r.hist[f], accounts[f]);
      NextIsOwed(r, w, accounts);
    }
  }

  // ---------------------------------------------------------------- cancelled is cancelled

  /** A cancelled operation stays so, whatever happens next. */
  ghost predicate StaysCancelled<T>(a: Accounts<T>, b: Accounts<T>) {
    |a| <= |b| && forall k | 0 <= k < |a| ::
      && b[k].id == a[k].id && (a[k].fate.WasCancelled? ==> b[k] == a[k])
      && (!a[k].fate.Undecided? ==> b[k].began == a[k].began && b[k].sent == a[k].sent && !b[k].fate.Undecided?)
  }

  lemma AnsweredStays<T>(accounts: Accounts<T>, id: int, items: seq<T>, fin: Finish<T>)
    ensures StaysCancelled(accounts, Answered(accounts, id, items, fin))
    ensures |Answered(accounts, id, items, fin)| == |accounts|
  {
  }

  lemma BrokenStays<T>(accounts: Accounts<T>, err: nat)
    ensures StaysCancelled(accounts, Broken(accounts, err)) && |Broken(accounts, err)| == |accounts|
  {
  }

  lemma StoppedStays<T>(accounts: Accounts<T>, told: nat, id: int, k: nat)
    ensures StaysCancelled(accounts, Stopped(accounts, told, id))
    ensures StaysCancelled(accounts, StoppedAt(accounts, told, k))
  {
    hide Reached;
  }

  lemma SameStays<T>(accounts: Accounts<T>)
    ensures StaysCancelled(accounts, accounts)
  {
  }

  lemma MoreStays<T>(accounts: Accounts<T>, a: Account<T>)
    ensures StaysCancelled(accounts, accounts + [a])
  {
  }

  lemma StaysTwice<T>(a: Accounts<T>, b: Accounts<T>, c: Accounts<T>)
    requires StaysCancelled(a, b) && StaysCancelled(b, c)
    ensures StaysCancelled(a, c)
  {
  }

  /** Requests that were cancelled before they began have nothing but that. */
  ghost predicate StoppedOk<T>(accounts: Accounts<T>, stopped: set<int>) {
    forall k | 0 <= k < |accounts| && accounts[k].id in stopped ::
      accounts[k].fate.WasCancelled? && !accounts[k].began && accounts[k].sent == []
  }

  lemma StaysStopped<T>(a: Accounts<T>, b: Accounts<T>, stopped: set<int>)
    requires StoppedOk(a, stopped) && StaysCancelled(a, b) && |a| == |b|
    ensures StoppedOk(b, stopped)
  {
  }

  /** Their only result is CANCELLED. */
  lemma StoppedSettles<T>(b: seq<Popped<T>>, a: Account<T>)
    requires Settles(b, a) && a.fate.WasCancelled? && !a.began
    ensures b == [Removed(a.id)]
  {
    assert b[..|b| - 1] == [];
  }
}
