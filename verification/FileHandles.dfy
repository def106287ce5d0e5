// The server's registry of issued file handles and its background reaper (src/file_handle_store.rs).
module FileHandles {
  import opened Common
  import Framing
  import Varint

  datatype Direction = Upload | Download

  datatype Record = Record(
    sessionId: seq<Byte>, userId: string, direction: Direction, resolvedSize: nat, expiryTs: nat)

  datatype HandleError = Unknown | Expired | SessionMismatch | UserMismatch | DirectionMismatch

  type Handles = map<nat, Record>

  /** Who presents a handle, and for what. */
  datatype Claim = Claim(sessionId: seq<Byte>, userId: string, direction: Direction)

  predicate Matches(record: Record, claim: Claim) {
    record.sessionId == claim.sessionId && record.userId == claim.userId && record.direction == claim.direction
  }

  function Validation(handles: Handles, handle: nat, claim: Claim, now: nat): Result<Record, HandleError> {
    if handle !in handles then Err(Unknown)
    else if handles[handle].sessionId != claim.sessionId then Err(SessionMismatch)
    else if handles[handle].userId != claim.userId then Err(UserMismatch)
    else if handles[handle].direction != claim.direction then Err(DirectionMismatch)
    else if now > handles[handle].expiryTs then Err(Expired)
    else Ok(handles[handle])
  }

  function Swept(handles: Handles, now: nat): Handles {
    map h | h in handles && handles[h].expiryTs >= now :: handles[h]
  }

  /** A random 64-bit draw masked to what a varint can carry. */
  function Mask(draw: U64): nat {
    draw % (Varint.MAX + 1)
  }

  /** Some draw is not in use. */
  predicate SomeVacant(draws: seq<U64>, handles: Handles) {
    exists k :: 0 <= k < |draws| && Mask(draws[k]) !in handles
  }

  /** The handle is the first draw that is not in use. */
  predicate FirstVacant(draws: seq<U64>, handles: Handles, handle: nat) {
    exists k :: 0 <= k < |draws| && Mask(draws[k]) == handle && handle !in handles
                && forall j :: 0 <= j < k ==> Mask(draws[j]) in handles
  }

  function RecordOf(claim: Claim, resolvedSize: nat, expiryTs: nat): Record {
    Record(claim.sessionId, claim.userId, claim.direction, resolvedSize, expiryTs)
  }

  class FileHandleStore {
    var handles: Handles

    constructor ()
      ensures handles == map[]
    {
      handles := map[];
    }

    /** Issues the first masked draw that is vacant, or refuses at the cap and changes nothing. */
    method TryIssue(claim: Claim, resolvedSize: nat, now: nat, ttl: nat, maxConcurrent: nat, draws: seq<U64>)
      returns (issued: Option<(nat, nat)>)
      requires SomeVacant(draws, handles)
      modifies this
      ensures issued.None? <==> |old(handles)| >= maxConcurrent
      ensures issued.None? ==> handles == old(handles)
      ensures issued.Some? ==>
                && FirstVacant(draws, old(handles), issued.value.0)
                && issued.value.0 <= Varint.MAX && issued.value.1 == now + ttl
                && handles == old(handles)[issued.value.0 := RecordOf(claim, resolvedSize, now + ttl)]
    {
      var expiryTs := now + ttl;
      if |handles| >= maxConcurrent {
        return None;
      }
      var k := 0;
      while Mask(draws[k]) in handles
        invariant 0 <= k < |draws|
        invariant forall j :: 0 <= j < k ==> Mask(draws[j]) in handles
        decreases |draws| - k
      {
        k := k + 1;
      }
      var candidate := Mask(draws[k]);
      assert FirstVacant(draws, handles, candidate);
      handles := handles[candidate := RecordOf(claim, resolvedSize, expiryTs)];
      return Some((candidate, expiryTs));
    }

    method SweepExpired(now: nat) returns (removed: int)
      modifies this
      ensures handles == Swept(old(handles), now) && removed == |old(handles)| - |handles|
      ensures forall h :: h in handles <==> h in old(handles) && old(handles)[h].expiryTs >= now
      ensures forall h :: h in handles ==> handles[h] == old(handles)[h]
    {
      var before := |handles|;
      handles := map h | h in handles && handles[h].expiryTs >= now :: handles[h];
      removed := before - |handles|;
    }

    /** Succeeds exactly for the session, user and direction the handle was issued to, up to its expiry. */
    method Validate(handle: nat, claim: Claim, now: nat) returns (r: Result<Record, HandleError>)
      ensures r == Validation(handles, handle, claim, now)
      ensures r.Ok? <==> handle in handles && Matches(handles[handle], claim) && now <= handles[handle].expiryTs
    {
      if handle !in handles {
        return Err(Unknown);
      }
      var record := handles[handle];
      if record.sessionId != claim.sessionId {
        return Err(SessionMismatch);
      }
      if record.userId != claim.userId {
        return Err(UserMismatch);
      }
      if record.direction != claim.direction {
        return Err(DirectionMismatch);
      }
      if now > record.expiryTs {
        return Err(Expired);
      }
      return Ok(record);
    }

    method Remove(handle: nat)
      modifies this
      ensures handles == old(handles) - {handle}
    {
      handles := handles - {handle};
    }
  }

  /** The mask keeps the low 62 bits of a draw. */
  lemma {:induction false} MaskKeepsLowBits(high: nat, low: nat)
    requires high < 4 && low < 0x4000_0000_0000_0000
    ensures Mask(high * 0x4000_0000_0000_0000 + low) == low
  {
  }

  /** A handle drawn from the whole 64-bit range survives the prologue of the `file` stream that presents it. */
  lemma {:induction false} HandleSurvivesPrologue(draw: U64, version: Byte, rest: seq<Byte>)
    ensures Mask(draw) <= Varint.MAX
    ensures var p := Framing.Prologue(Framing.File, version, Mask(draw));
            Framing.ParsePrologue(Framing.PrologueBytes(p) + rest)
              == Framing.Parsed(p, |Framing.PrologueBytes(p)|)
  {
    Framing.PrologueRoundTrip(Framing.Prologue(Framing.File, version, Mask(draw)), rest);
  }

  // ---------------------------------------------------------------------
  // Runs, with and without the reaper
  // ---------------------------------------------------------------------

  datatype Step =
    | Issue(handle: nat, record: Record, cap: nat)
    | Present(handle: nat, claim: Claim)
    | Finish(handle: nat)
    | Sweep

  datatype Event = At(now: nat, step: Step)

  function After(handles: Handles, e: Event, reaper: bool): Handles {
    match e.step
    case Issue(handle, record, cap) => if |handles| >= cap then handles else handles[handle := record]
    case Present(_, _) => handles
    case Finish(handle) => handles - {handle}
    case Sweep => if reaper then Swept(handles, e.now) else handles
  }

  /** The store after `n` events; without the reaper, sweeps do nothing. */
  function Run(es: seq<Event>, n: nat, reaper: bool): Handles
    requires n <= |es|
  {
    if n == 0 then map[] else After(Run(es, n - 1, reaper), es[n - 1], reaper)
  }

  predicate NeverBack(es: seq<Event>) {
    forall i, j :: 0 <= i < j < |es| ==> es[i].now <= es[j].now
  }

  /** Without the reaper every issue finds room and draws a handle that is not in the store. */
  predicate EveryIssueSucceeds(es: seq<Event>) {
    forall i {:trigger FindsRoom(es, i)} :: 0 <= i < |es| ==> FindsRoom(es, i)
  }

  predicate FindsRoom(es: seq<Event>, i: nat)
    requires i < |es|
  {
    es[i].step.Issue? ==> es[i].step.handle !in Run(es, i, false) && |Run(es, i, false)| < es[i].step.cap
  }

  /** `swept` is `full` without some records that expired before `now`. */
  ghost predicate OnlyExpiredGone(full: Handles, swept: Handles, now: nat) {
    && (forall h :: h in swept ==> h in full && swept[h] == full[h])
    && forall h :: h in full && h !in swept ==> full[h].expiryTs < now
  }

  lemma {:induction false} NoLarger(full: Handles, swept: Handles)
    requires forall h :: h in swept ==> h in full
    ensures |swept| <= |full|
  {
    SubsetSize(swept.Keys, full.Keys);
  }

  lemma {:induction false} SubsetSize(a: set<nat>, b: set<nat>)
    requires a <= b
    ensures |a| <= |b|
  {
    assert b == a + (b - a);
  }

  lemma {:induction false} GoneStep(full: Handles, swept: Handles, e: Event, before: nat)
    requires before <= e.now && OnlyExpiredGone(full, swept, before)
    requires e.step.Issue? ==> e.step.handle !in full && |full| < e.step.cap
    ensures OnlyExpiredGone(After(full, e, false), After(swept, e, true), e.now)
  {
    NoLarger(full, swept);
  }

  /** At every point of a run, the reaper has only removed records that had already expired. */
  lemma {:induction false} ReaperRemovesOnlyExpired(es: seq<Event>, n: nat, now: nat)
    requires n <= |es| && NeverBack(es) && EveryIssueSucceeds(es) && (n > 0 ==> es[n - 1].now <= now)
    ensures OnlyExpiredGone(Run(es, n, false), Run(es, n, true), now)
  {
    for i := 0 to n
      invariant OnlyExpiredGone(Run(es, i, false), Run(es, i, true), if i == 0 then 0 else es[i - 1].now)
    {
      assert FindsRoom(es, i);
      GoneStep(Run(es, i, false), Run(es, i, true), es[i], if i == 0 then 0 else es[i - 1].now);
    }
  }

  /** The reaper never changes which validations succeed or what they return; it changes the error only of a handle
      that is already past its expiry, and only to `Unknown`. */
  lemma {:induction false} ReaperIsTransparent(es: seq<Event>, k: nat)
    requires k < |es| && es[k].step.Present? && NeverBack(es) && EveryIssueSucceeds(es)
    ensures var (handle, claim, now) := (es[k].step.handle, es[k].step.claim, es[k].now);
            var (plain, swept) := (Run(es, k, false), Run(es, k, true));
            var (a, b) := (Validation(plain, handle, claim, now), Validation(swept, handle, claim, now));
            && (a.Ok? <==> b.Ok?)
            && (a != b ==> b == Err(Unknown) && handle in plain && plain[handle].expiryTs < now)
  {
    ReaperRemovesOnlyExpired(es, k, es[k].now);
  }

  // ---------------------------------------------------------------------
  // What a successful validation says about the past
  // ---------------------------------------------------------------------

  /** The record of the last issue of `handle` among the first `n` events that found room and that no later `Finish` has
      ended. Sweeps do not end it; they only make room. */
  function Owner(es: seq<Event>, n: nat, handle: nat, reaper: bool): Option<Record>
    requires n <= |es|
  {
    if n == 0 then None
    else OwnerAfter(Owner(es, n - 1, handle, reaper), |Run(es, n - 1, reaper)|, es[n - 1].step, handle)
  }

  function OwnerAfter(owner: Option<Record>, held: nat, step: Step, handle: nat): Option<Record> {
    match step
    case Issue(h, record, cap) => if h == handle && held < cap then Some(record) else owner
    case Finish(h) => if h == handle then None else owner
    case _ => owner
  }

  function Lookup(handles: Handles, handle: nat): Option<Record> {
    if handle in handles then Some(handles[handle]) else None
  }

  /** The store holds the owner's record, unless that has expired before `now` and been swept. */
  ghost predicate HoldsOwner(handles: Handles, owner: Option<Record>, handle: nat, now: nat, reaper: bool) {
    || Lookup(handles, handle) == owner
    || (reaper && Lookup(handles, handle) == None && owner.Some? && owner.value.expiryTs < now)
  }

  lemma {:induction false} HoldsOwnerStep(
    handles: Handles, owner: Option<Record>, handle: nat, before: nat, e: Event, reaper: bool)
    requires before <= e.now && HoldsOwner(handles, owner, handle, before, reaper)
    ensures HoldsOwner(After(handles, e, reaper), OwnerAfter(owner, |handles|, e.step, handle), handle, e.now, reaper)
  {
  }

  /** At every point of every run the store is the owners' records, less swept ones that had expired. */
  lemma {:induction false} StoreIsHistory(es: seq<Event>, n: nat, handle: nat, now: nat, reaper: bool)
    requires n <= |es| && NeverBack(es) && (n > 0 ==> es[n - 1].now <= now)
    ensures HoldsOwner(Run(es, n, reaper), Owner(es, n, handle, reaper), handle, now, reaper)
  {
    for i := 0 to n
      invariant HoldsOwner(Run(es, i, reaper), Owner(es, i, handle, reaper), handle,
                           if i == 0 then 0 else es[i - 1].now, reaper)
    {
      HoldsOwnerStep(Run(es, i, reaper), Owner(es, i, handle, reaper), handle,
                     if i == 0 then 0 else es[i - 1].now, es[i], reaper);
    }
  }

  /** In every run, with the reaper or without, full or not, a presented handle is accepted with a record if and only if
      that record was issued under the handle, no transfer has ended it, it names the presenter, and it has not
      expired. */
  lemma {:induction false} AcceptedIffIssued(es: seq<Event>, k: nat, record: Record, reaper: bool)
    requires k < |es| && es[k].step.Present? && NeverBack(es)
    ensures Validation(Run(es, k, reaper), es[k].step.handle, es[k].step.claim, es[k].now) == Ok(record)
       <==> && Owner(es, k, es[k].step.handle, reaper) == Some(record)
            && Matches(record, es[k].step.claim) && es[k].now <= record.expiryTs
  {
    StoreIsHistory(es, k, es[k].step.handle, es[k].now, reaper);
  }

  /** What a presented handle is told when its last unended issue is this one: the first thing that is wrong with it, in
      the order session, user, direction, expiry. */
  function Verdict(owner: Option<Record>, claim: Claim, now: nat): Result<Record, HandleError> {
    match owner
    case None => Err(Unknown)
    case Some(record) =>
      if claim.sessionId != record.sessionId then Err(SessionMismatch)
      else if claim.userId != record.userId then Err(UserMismatch)
      else if claim.direction != record.direction then Err(DirectionMismatch)
      else if record.expiryTs < now then Err(Expired)
      else Ok(record)
  }

  /** In every run a presented handle is told what its last unended issue calls for; only once that has expired may the
      reaper have made it unknown. */
  lemma {:induction false} ToldWhatHistorySays(es: seq<Event>, k: nat, reaper: bool)
    requires k < |es| && es[k].step.Present? && NeverBack(es)
    ensures var owner := Owner(es, k, es[k].step.handle, reaper);
            var told := Validation(Run(es, k, reaper), es[k].step.handle, es[k].step.claim, es[k].now);
            || told == Verdict(owner, es[k].step.claim, es[k].now)
            || (reaper && told == Err(Unknown) && owner.Some? && owner.value.expiryTs < es[k].now)
  {
    StoreIsHistory(es, k, es[k].step.handle, es[k].now, reaper);
  }

  // ---------------------------------------------------------------------
  // What a sweep makes room for
  // ---------------------------------------------------------------------

  /** The last of the first `n` events was a sweep. */
  predicate JustSwept(es: seq<Event>, n: nat)
    requires n <= |es|
  {
    n > 0 && es[n - 1].step.Sweep?
  }

  /** Right after a sweep the store holds exactly the last unended issues that have not expired. */
  lemma {:induction false} SweptHoldsUnexpired(es: seq<Event>, n: nat, handle: nat, record: Record)
    requires n <= |es| && NeverBack(es) && JustSwept(es, n)
    ensures Lookup(Run(es, n, true), handle) == Some(record)
       <==> Owner(es, n, handle, true) == Some(record) && record.expiryTs >= es[n - 1].now
  {
    var now := es[n - 1].now;
    StoreIsHistory(es, n - 1, handle, now, true);
    assert Lookup(Run(es, n, true), handle) == Lookup(Swept(Run(es, n - 1, true), now), handle);
    SweptLookup(Run(es, n - 1, true), now, handle);
  }

  lemma {:induction false} SweptLookup(handles: Handles, now: nat, handle: nat)
    ensures Lookup(Swept(handles, now), handle)
         == match Lookup(handles, handle)
            case None => None
            case Some(record) => if record.expiryTs >= now then Some(record) else None
  {
  }

  /** The handles issued in the first `n` events. */
  function Issued(es: seq<Event>, n: nat): set<nat>
    requires n <= |es|
  {
    if n == 0 then {}
    else Issued(es, n - 1) + if es[n - 1].step.Issue? then {es[n - 1].step.handle} else {}
  }

  predicate UnexpiredOwner(es: seq<Event>, n: nat, handle: nat, now: nat)
    requires n <= |es|
  {
    var owner := Owner(es, n, handle, true);
    owner.Some? && owner.value.expiryTs >= now
  }

  lemma {:induction false} OwnersWereIssued(es: seq<Event>, n: nat, handle: nat)
    requires n <= |es| && Owner(es, n, handle, true).Some?
    ensures handle in Issued(es, n)
  {
    if n > 0 && handle !in Issued(es, n - 1) {
      if Owner(es, n - 1, handle, true).Some? {
        OwnersWereIssued(es, n - 1, handle);
      }
    }
  }

  /** Right after a sweep an issue finds room if and only if fewer handles than the cap have an unexpired owner. */
  lemma {:induction false} SweepMakesRoom(es: seq<Event>, n: nat, cap: nat)
    requires n <= |es| && NeverBack(es) && JustSwept(es, n)
    ensures var unexpired := set h | h in Issued(es, n) && UnexpiredOwner(es, n, h, es[n - 1].now);
            |Run(es, n, true)| < cap <==> |unexpired| < cap
  {
    var unexpired := set h | h in Issued(es, n) && UnexpiredOwner(es, n, h, es[n - 1].now);
    var handles := Run(es, n, true);
    forall h
      ensures h in unexpired <==> h in handles.Keys
    {
      SweptKeys(es, n, h);
    }
    assert unexpired == handles.Keys;
  }

  lemma {:induction false} SweptKeys(es: seq<Event>, n: nat, h: nat)
    requires n <= |es| && NeverBack(es) && JustSwept(es, n)
    ensures h in Run(es, n, true) <==> h in Issued(es, n) && UnexpiredOwner(es, n, h, es[n - 1].now)
  {
    if h in Run(es, n, true) {
      SweptHoldsUnexpired(es, n, h, Run(es, n, true)[h]);
      OwnersWereIssued(es, n, h);
    }
    if UnexpiredOwner(es, n, h, es[n - 1].now) {
      SweptHoldsUnexpired(es, n, h, Owner(es, n, h, true).value);
    }
  }

  /** With one cap the store never holds more, whatever is swept. */
  lemma {:induction false} CapIsKept(es: seq<Event>, n: nat, cap: nat, reaper: bool)
    requires n <= |es| && forall i :: 0 <= i < |es| && es[i].step.Issue? ==> es[i].step.cap == cap
    ensures |Run(es, n, reaper)| <= cap
  {
    for i := 0 to n
      invariant |Run(es, i, reaper)| <= cap
    {
      CapStep(Run(es, i, reaper), es[i], cap, reaper);
    }
  }

  lemma {:induction false} CapStep(handles: Handles, e: Event, cap: nat, reaper: bool)
    requires |handles| <= cap && (e.step.Issue? ==> e.step.cap == cap)
    ensures |After(handles, e, reaper)| <= cap
  {
    match e.step
    case Finish(handle) => NoLarger(handles, handles - {handle});
    case Sweep => NoLarger(handles, Swept(handles, e.now));
    case _ =>
  }

  // ---------------------------------------------------------------------
  // The store's own methods take these steps
  // ---------------------------------------------------------------------

  lemma {:induction false} RunOfMore(es: seq<Event>, e: Event, n: nat)
    requires n <= |es|
    ensures Run(es + [e], n, true) == Run(es, n, true)
  {
    if n > 0 {
      RunOfMore(es, e, n - 1);
      assert (es + [e])[n - 1] == es[n - 1];
    }
  }

  lemma {:induction false} StillNeverBack(es: seq<Event>, e: Event)
    requires NeverBack(es) && (|es| > 0 ==> es[|es| - 1].now <= e.now)
    ensures NeverBack(es + [e])
  {
    var more := es + [e];
    forall i, j | 0 <= i < j < |more|
      ensures more[i].now <= more[j].now
    {
      assert more[i] == es[i];
      assert j < |es| ==> more[j] == es[j];
    }
  }

  /** One more event takes the run one step on. */
  lemma {:induction false} Happened(es: seq<Event>, e: Event)
    requires NeverBack(es) && (|es| > 0 ==> es[|es| - 1].now <= e.now)
    ensures NeverBack(es + [e]) && Run(es + [e], |es| + 1, true) == After(Run(es, |es|, true), e, true)
  {
    StillNeverBack(es, e);
    RunOfMore(es, e, |es|);
    assert (es + [e])[|es|] == e;
  }

  /** A store whose reaper runs, with everything that has happened to it. */
  class Registry {
    const store: FileHandleStore
    ghost var events: seq<Event>

    ghost predicate Valid()
      reads this, store
    {
      NeverBack(events) && store.handles == Run(events, |events|, true)
    }

    /** The clock has not gone back. */
    ghost predicate NotBefore(now: nat)
      reads this
    {
      |events| > 0 ==> events[|events| - 1].now <= now
    }

    constructor ()
      ensures Valid() && events == [] && fresh(store)
    {
      store := new FileHandleStore();
      events := [];
    }

    /** A transfer is granted a handle, unless the store is full. */
    method Request(claim: Claim, resolvedSize: nat, now: nat, ttl: nat, cap: nat, draws: seq<U64>)
      returns (issued: Option<(nat, nat)>)
      requires Valid() && NotBefore(now)
      requires SomeVacant(draws, store.handles)
      modifies this, store
      ensures Valid()
      ensures issued.None? <==> |old(store.handles)| >= cap
      ensures issued.None? ==> events == old(events)
      ensures issued.Some? ==>
                events == old(events) + [At(now, Issue(
                  issued.value.0, RecordOf(claim, resolvedSize, issued.value.1), cap))]
    {
      issued := store.TryIssue(claim, resolvedSize, now, ttl, cap, draws);
      if issued.Some? {
        ghost var e := At(now, Issue(issued.value.0, RecordOf(claim, resolvedSize, issued.value.1), cap));
        assert store.handles == After(old(store.handles), e, true);
        Happened(events, e);
        events := events + [e];
      }
    }

    method ReaperTicks(now: nat)
      requires Valid() && NotBefore(now)
      modifies this, store
      ensures Valid() && events == old(events) + [At(now, Sweep)]
    {
      Happened(events, At(now, Sweep));
      var removed := store.SweepExpired(now);
      events := events + [At(now, Sweep)];
    }

    /** A stream that presents a handle is let in with a record exactly if that record is the handle's last unended
        issue, names the presenter and has not expired. */
    method StreamOpened(handle: nat, claim: Claim, now: nat) returns (r: Result<Record, HandleError>)
      requires Valid() && NotBefore(now)
      modifies this
      ensures Valid() && events == old(events) + [At(now, Present(handle, claim))]
      ensures forall record :: r == Ok(record) <==>
                && Owner(old(events), |old(events)|, handle, true) == Some(record)
                && Matches(record, claim) && now <= record.expiryTs
    {
      r := store.Validate(handle, claim, now);
      Happened(events, At(now, Present(handle, claim)));
      StoreIsHistory(events, |events|, handle, now, true);
      events := events + [At(now, Present(handle, claim))];
    }

    method TransferEnded(handle: nat, now: nat)
      requires Valid() && NotBefore(now)
      modifies this, store
      ensures Valid() && events == old(events) + [At(now, Finish(handle))]
    {
      Happened(events, At(now, Finish(handle)));
      store.Remove(handle);
      events := events + [At(now, Finish(handle))];
    }
  }
}
