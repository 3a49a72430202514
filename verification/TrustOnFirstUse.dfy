/**
 The decision taken on a server's key during the handshake, and what it is worth over a
 run of checks, forgets, restarts and failing reads and writes.
 */
module TrustOnFirstUse {
  import opened Wrappers
  import opened Lines
  import opened KnownHosts
  import opened HostKeys

  datatype Operation = Reading | Writing

  datatype Failure = KeyMismatch(expected: Blob, got: Blob) | StoreAccess(operation: Operation)

  /** What the handshake is told, and what is left in the failure slot when something is. */
  datatype Answer = Answer(reply: Result<bool, ()>, failure: Option<Failure>)

  ghost function AfterCheck(st: Store, host: string, port: Port, key: Blob, faults: Faults): (r: (Store, Answer)) {
    var (st1, verdict) := AfterVerify(st, host, port, key, faults);
    match verdict
    case Err(_) => (st1, Answer(Err(()), Some(StoreAccess(Reading))))
    case Ok(Known) => (st1, Answer(Ok(true), None))
    case Ok(Mismatch(expected, got)) => (st1, Answer(Ok(false), Some(KeyMismatch(expected, got))))
    case Ok(Unknown) =>
      var (st2, trusted) := AfterTrust(st1, host, port, key, faults);
      if trusted.Err? then (st2, Answer(Err(()), Some(StoreAccess(Writing)))) else (st2, Answer(Ok(true), None))
  }

  class Client {
    const host: string
    const port: Port
    const store: HostKeyStore
    var slot: Option<Failure>

    constructor (host: string, port: Port, store: HostKeyStore)
      ensures this.host == host && this.port == port && this.store == store && slot == None
    {
      this.host := host;
      this.port := port;
      this.store := store;
      slot := None;
    }

    method CheckServerKey(key: Blob, faults: Faults) returns (r: Result<bool, ()>)
      modifies this`slot, store, store.file
      ensures var (st, answer) := AfterCheck(old(store.State()), host, port, key, faults);
              && store.State() == st
              && r == answer.reply
              && slot == if answer.failure.Some? then answer.failure else old(slot)
    {
      var verdict := store.Verify(host, port, key, faults);
      match verdict {
        case Err(_) =>
          slot := Some(StoreAccess(Reading));
          return Err(());
        case Ok(Known) =>
          return Ok(true);
        case Ok(Mismatch(expected, got)) =>
          slot := Some(KeyMismatch(expected, got));
          return Ok(false);
        case Ok(Unknown) =>
          var trusted := store.Trust(host, port, key, faults);
          if trusted.Err? {
            slot := Some(StoreAccess(Writing));
            return Err(());
          }
          return Ok(true);
      }
    }
  }

  // ----- One step -----

  /** What the store goes by: its cache, or the file it would read. */
  function Effective(st: Store): Entries {
    if st.cache.Some? then st.cache.value else OnDisk(st.file)
  }

  /** The cache, once loaded, is what the file is read as. */
  predicate InStep(st: Store) {
    st.cache.Some? ==> st.cache.value == OnDisk(st.file)
  }

  lemma OnDiskIsWellFormed(file: Option<string>)
    ensures WellFormed(OnDisk(file))
  {
    if file.Some? {
      ParseIsWellFormed(file.value);
    }
  }

  /** The file format can hold the host and the key. */
  predicate Lasts(id: HostId, key: Blob) {
    GoodId(id) && GoodBlob(key)
  }

  /** A key just trusted is read back from the file exactly when the format can hold host and key. */
  lemma TrustLastsIff(st: Store, host: string, port: Port, key: Blob, faults: Faults)
    requires InStep(st) && AfterTrust(st, host, port, key, faults).1.Ok?
    ensures InStep(AfterTrust(st, host, port, key, faults).0) <==> Lasts(MakeKey(host, port), key)
  {
    OnDiskIsWellFormed(st.file);
    var m := Loaded(st, faults).value;
    var id := MakeKey(host, port);
    WrittenRoundTrip(m[id := key]);
    assert m[id := key][id] == key;
  }

  datatype Event =
    | Check(host: string, port: Port, key: Blob, faults: Faults)
    | Forget(host: string, port: Port, faults: Faults)
    | Restart

  ghost function Apply(st: Store, ev: Event): Store {
    match ev
    case Check(host, port, key, faults) => AfterCheck(st, host, port, key, faults).0
    case Forget(host, port, faults) => AfterForget(st, host, port, faults).0
    case Restart => st.(cache := None)
  }

  ghost predicate Accepts(st: Store, ev: Event) {
    ev.Check? && AfterCheck(st, ev.host, ev.port, ev.key, ev.faults).1.reply == Ok(true)
  }

  ghost predicate Forgets(st: Store, ev: Event) {
    ev.Forget? && AfterForget(st, ev.host, ev.port, ev.faults).1 == Ok(true)
  }

  /** The entry of the map an event is about. */
  function EntryFor(ev: Event): HostId
    requires !ev.Restart?
  {
    MakeKey(ev.host, ev.port)
  }

  /**
   A check accepts a key that the store holds for the endpoint already, or that it could write
   there; nothing else in the store changes. Any other answer leaves it as it was, and the
   failure slot says why.
   */
  ghost predicate ChecksWell(st: Store, ev: Event)
    requires ev.Check?
  {
    var (st', answer) := AfterCheck(st, ev.host, ev.port, ev.key, ev.faults);
    var before, after, id := Effective(st), Effective(st'), EntryFor(ev);
    && (answer.reply == Ok(true) <==>
          (st.cache.Some? || !ev.faults.read) && (if id in before then before[id] == ev.key else !ev.faults.write))
    && (answer.reply == Ok(true) ==> after == before[id := ev.key] && answer.failure == None)
    && (answer.reply != Ok(true) ==> after == before && answer.failure.Some?)
    && (answer.reply == Ok(false) ==> id in before && answer.failure == Some(KeyMismatch(before[id], ev.key)))
    && (answer.reply.Err? ==> answer.failure == Some(StoreAccess(if st.cache.Some? || !ev.faults.read then Writing else Reading)))
  }

  lemma CheckEffect(st: Store, ev: Event)
    requires ev.Check?
    ensures ChecksWell(st, ev)
  {
    var id := EntryFor(ev);
    if id in Effective(st) && Effective(st)[id] == ev.key {
      assert Effective(st)[id := ev.key] == Effective(st);
    }
  }

  /**
   Forgetting removes the entry, and nothing else, and says so, exactly if there is one and the file can be
   written; without one it says that, and every failure leaves the store as it was.
   */
  lemma ForgetEffect(st: Store, ev: Event)
    requires ev.Forget?
    ensures Effective(Apply(st, ev)) == if Forgets(st, ev) then Effective(st) - {EntryFor(ev)} else Effective(st)
    ensures AfterForget(st, ev.host, ev.port, ev.faults).1 ==
            if st.cache.None? && ev.faults.read then Err(ReadFailed)
            else if EntryFor(ev) !in Effective(st) then Ok(false)
            else if ev.faults.write then Err(WriteFailed)
            else Ok(true)
  {
  }

  /** The event stores a key that the file will not give back. */
  ghost predicate Misstores(st: Store, ev: Event) {
    Accepts(st, ev) && EntryFor(ev) !in Effective(st) && !Lasts(EntryFor(ev), ev.key)
  }

  /** Cache and file part exactly when a key is stored that the file format cannot hold. */
  lemma StaysInStepIff(st: Store, ev: Event)
    requires InStep(st)
    ensures InStep(Apply(st, ev)) <==> !Misstores(st, ev)
  {
    match ev
    case Check(host, port, key, faults) =>
      var st1 := AfterVerify(st, host, port, key, faults).0;
      if AfterVerify(st, host, port, key, faults).1 == Ok(Unknown) && !faults.write {
        TrustLastsIff(st1, host, port, key, faults);
      }
    case Forget(host, port, _) =>
      OnDiskIsWellFormed(st.file);
      WrittenRoundTrip(OnDisk(st.file) - {MakeKey(host, port)});
    case Restart =>
  }

  // ----- Runs -----

  ghost function After(st: Store, evs: seq<Event>): Store {
    if evs == [] then st else Apply(After(st, evs[..|evs| - 1]), evs[|evs| - 1])
  }

  ghost predicate NeverMisstores(st: Store, evs: seq<Event>) {
    evs == [] || (NeverMisstores(st, evs[..|evs| - 1]) && !Misstores(After(st, evs[..|evs| - 1]), evs[|evs| - 1]))
  }

  ghost predicate InStepThroughout(st: Store, evs: seq<Event>) {
    InStep(After(st, evs)) && (evs == [] || InStepThroughout(st, evs[..|evs| - 1]))
  }

  /** Over a run the loaded cache is always the parsed file exactly when no key is stored that the file cannot hold. */
  lemma {:induction false} RunsStayInStepIff(st: Store, evs: seq<Event>)
    requires InStep(st)
    ensures InStepThroughout(st, evs) <==> NeverMisstores(st, evs)
  {
    if evs != [] {
      var front, ev := evs[..|evs| - 1], evs[|evs| - 1];
      RunsStayInStepIff(st, front);
      if NeverMisstores(st, front) {
        StaysInStepIff(After(st, front), ev);
      }
    }
  }

  /** The first `k` events of a run. */
  ghost function At(st: Store, evs: seq<Event>, k: nat): Store
    requires k <= |evs|
  {
    After(st, evs[..k])
  }

  lemma NextAt(st: Store, evs: seq<Event>, k: nat)
    requires k < |evs|
    ensures At(st, evs, k + 1) == Apply(At(st, evs, k), evs[k])
  {
    assert evs[..k + 1][..k] == evs[..k];
  }

  lemma {:induction false} InStepAt(st: Store, evs: seq<Event>, k: nat)
    requires InStepThroughout(st, evs) && k <= |evs|
    ensures InStep(At(st, evs, k))
    decreases |evs|
  {
    if k == |evs| {
      assert evs[..k] == evs;
    } else {
      InStepAt(st, evs[..|evs| - 1], k);
      assert evs[..|evs| - 1][..k] == evs[..k];
    }
  }

  /** Whenever the program restarts, its cache is what the file will be read as. */
  ghost predicate RestartsInStep(st: Store, evs: seq<Event>) {
    forall k :: 0 <= k < |evs| && evs[k].Restart? ==> InStep(At(st, evs, k))
  }

  /** So it is when every key stored can be held by the file. */
  lemma LastingRunsRestartInStep(st: Store, evs: seq<Event>)
    requires InStep(st) && NeverMisstores(st, evs)
    ensures RestartsInStep(st, evs)
  {
    RunsStayInStepIff(st, evs);
    forall k | 0 <= k < |evs| ensures InStep(At(st, evs, k)) {
      InStepAt(st, evs, k);
    }
  }

  /** Between events `i` and `j` no call forgets the entry. */
  ghost predicate NotForgotten(st: Store, evs: seq<Event>, id: HostId, i: nat, j: nat)
    requires i <= j <= |evs|
  {
    forall k :: i <= k < j && Forgets(At(st, evs, k), evs[k]) ==> EntryFor(evs[k]) != id
  }

  predicate Holds(st: Store, id: HostId, key: Blob) {
    id in Effective(st) && Effective(st)[id] == key
  }

  /** The file has the key for the entry. */
  predicate Durable(st: Store, id: HostId, key: Blob) {
    id in OnDisk(st.file) && OnDisk(st.file)[id] == key
  }

  /** A held key survives every event but one that forgets its entry, or a restart that reads something else. */
  lemma HeldStays(st: Store, ev: Event, id: HostId, key: Blob)
    requires Holds(st, id, key)
    requires Forgets(st, ev) ==> EntryFor(ev) != id
    requires ev.Restart? ==> InStep(st)
    ensures Holds(Apply(st, ev), id, key)
  {
    match ev
    case Check(_, _, _, _) => CheckEffect(st, ev);
    case Forget(_, _, _) => ForgetEffect(st, ev);
    case Restart =>
  }

  lemma AcceptedIsHeld(st: Store, ev: Event)
    requires Accepts(st, ev)
    ensures Holds(Apply(st, ev), EntryFor(ev), ev.key)
  {
    CheckEffect(st, ev);
  }

  lemma HeldAt(st: Store, evs: seq<Event>, k: nat, id: HostId, key: Blob)
    requires k < |evs| && Holds(At(st, evs, k), id, key)
    requires Forgets(At(st, evs, k), evs[k]) ==> EntryFor(evs[k]) != id
    requires evs[k].Restart? ==> InStep(At(st, evs, k))
    ensures Holds(At(st, evs, k + 1), id, key)
  {
    NextAt(st, evs, k);
    HeldStays(At(st, evs, k), evs[k], id, key);
  }

  /** An accepted key is held until it is forgotten, and is in the file while cache and file are in step. */
  lemma {:induction false} AcceptedStays(st: Store, evs: seq<Event>, i: nat, j: nat)
    requires RestartsInStep(st, evs)
    requires i < j <= |evs| && Accepts(At(st, evs, i), evs[i])
    requires NotForgotten(st, evs, EntryFor(evs[i]), i, j)
    ensures Holds(At(st, evs, j), EntryFor(evs[i]), evs[i].key)
    ensures InStep(At(st, evs, j)) ==> Durable(At(st, evs, j), EntryFor(evs[i]), evs[i].key)
    decreases j
  {
    if j - 1 > i {
      AcceptedStays(st, evs, i, j - 1);
      HeldAt(st, evs, j - 1, EntryFor(evs[i]), evs[i].key);
    } else {
      NextAt(st, evs, i);
      AcceptedIsHeld(At(st, evs, i), evs[i]);
    }
  }

  /** Two accepted keys of an entry that was not forgotten in between are the same. */
  ghost predicate OneKeyEach(st: Store, evs: seq<Event>) {
    forall i, j :: 0 <= i < j < |evs| && Accepts(At(st, evs, i), evs[i]) && Accepts(At(st, evs, j), evs[j])
      && EntryFor(evs[i]) == EntryFor(evs[j]) && NotForgotten(st, evs, EntryFor(evs[i]), i, j)
      ==> evs[i].key == evs[j].key
  }

  /**
   Trust on first use. Over any run of checks, forgets and restarts, of any hosts and keys, with
   reads and writes failing at will, once a key was accepted for an entry no other key is until
   it is forgotten, provided that whenever the program restarts its cache is what the file will
   be read as. A run without restarts needs nothing; for one with them, see
   `LastingRunsRestartInStep`.
   */
  lemma FirstKeyStays(file: Option<string>, evs: seq<Event>)
    requires RestartsInStep(Store(None, file), evs)
    ensures OneKeyEach(Store(None, file), evs)
  {
    var st := Store(None, file);
    forall i, j | 0 <= i < j < |evs| && Accepts(At(st, evs, i), evs[i]) && Accepts(At(st, evs, j), evs[j])
      && EntryFor(evs[i]) == EntryFor(evs[j]) && NotForgotten(st, evs, EntryFor(evs[i]), i, j)
      ensures evs[i].key == evs[j].key
    {
      AcceptedStays(st, evs, i, j);
      CheckEffect(At(st, evs, j), evs[j]);
    }
  }

  // ----- Where it does not hold -----

  const FINE: Faults := Faults(false, false)

  /** A host the file format takes for a comment: after a restart any key is accepted for it again. */
  lemma CommentHostForgets()
    ensures var evs := [Check("#h", 22, "A", FINE), Restart, Check("#h", 22, "B", FINE)];
            var st := Store(None, None);
            Accepts(At(st, evs, 0), evs[0]) && Accepts(At(st, evs, 2), evs[2])
  {
    var evs := [Check("#h", 22, "A", FINE), Restart, Check("#h", 22, "B", FINE)];
    var st := Store(None, None);
    assert evs[..0] == [];
    NextAt(st, evs, 0);
    NextAt(st, evs, 1);
    var st2 := At(st, evs, 2);
    OnDiskIsWellFormed(st2.file);
    assert !GoodId("#h");
    assert "#h" !in OnDisk(st2.file);
  }

  // ----- Two checks of one endpoint at a time -----

  /** Where a check is: the lock is let go between verifying and trusting. */
  datatype Stage = Begun | Trusting | Answered(answer: Answer)

  /** The next of the check's one or two windows. */
  ghost function Advance(st: Store, host: string, port: Port, key: Blob, faults: Faults, stage: Stage): (r: (Store, Stage)) {
    match stage
    case Begun =>
      var (st', verdict) := AfterVerify(st, host, port, key, faults);
      (st', match verdict
            case Err(_) => Answered(Answer(Err(()), Some(StoreAccess(Reading))))
            case Ok(Known) => Answered(Answer(Ok(true), None))
            case Ok(Mismatch(expected, got)) => Answered(Answer(Ok(false), Some(KeyMismatch(expected, got))))
            case Ok(Unknown) => Trusting)
    case Trusting =>
      var (st', trusted) := AfterTrust(st, host, port, key, faults);
      (st', Answered(if trusted.Err? then Answer(Err(()), Some(StoreAccess(Writing))) else Answer(Ok(true), None)))
    case Answered(_) => (st, stage)
  }

  /** The two windows with nothing in between are the check. */
  lemma AdvanceTwiceIsCheck(st: Store, host: string, port: Port, key: Blob, faults: Faults)
    ensures var (st1, stage) := Advance(st, host, port, key, faults, Begun);
            var (st2, answer) := AfterCheck(st, host, port, key, faults);
            Advance(st1, host, port, key, faults, stage) == (st2, Answered(answer))
  {
  }

  /** Two handshakes with one endpoint, offering keys `a` and `b`. */
  datatype Handshakes = Handshakes(store: Store, a: Stage, b: Stage)

  datatype Offer = Offer(host: string, port: Port, a: Blob, b: Blob)

  function StageOf(h: Handshakes, first: bool): Stage {
    if first then h.a else h.b
  }

  function KeyOf(o: Offer, first: bool): Blob {
    if first then o.a else o.b
  }

  /** One window of the first handshake's check, or of the second's, with no faults. */
  ghost function Turn(h: Handshakes, o: Offer, first: bool): Handshakes {
    var (st, stage) := Advance(h.store, o.host, o.port, KeyOf(o, first), FINE, StageOf(h, first));
    if first then Handshakes(st, stage, h.b) else Handshakes(st, h.a, stage)
  }

  ghost function Turns(h: Handshakes, o: Offer, order: seq<bool>): Handshakes
    decreases |order|
  {
    if order == [] then h else Turns(Turn(h, o, order[0]), o, order[1..])
  }

  /** When a handshake has its `n`-th window, counted from zero; the end of the order if it has none. */
  function Nth(order: seq<bool>, first: bool, n: nat): (k: nat)
    decreases |order|
  {
    if order == [] then 0
    else if order[0] != first then 1 + Nth(order[1..], first, n)
    else if n == 0 then 0
    else 1 + Nth(order[1..], first, n - 1)
  }

  /** Each check verifies before the other trusts. */
  predicate VerifyFirst(order: seq<bool>) {
    && Nth(order, true, 0) < Nth(order, false, 1)
    && Nth(order, false, 0) < Nth(order, true, 1)
  }

  /** A check verifies in its first window and trusts in its second, so that is a matter of the first two windows. */
  lemma VerifyFirstIff(order: seq<bool>)
    requires |order| >= 2
    ensures VerifyFirst(order) <==> order[0] != order[1]
  {
    var rest := order[1..];
    assert rest[0] == order[1];
    assert Nth(order, order[0], 0) == 0;
    assert Nth(order, !order[0], 0) == 1 + Nth(rest, !order[0], 0);
    assert Nth(order, order[0], 1) == 1 + Nth(rest, order[0], 0);
    assert Nth(order, !order[0], 1) == 1 + Nth(rest, !order[0], 1);
    if order[1] == order[0] {
      assert Nth(rest, order[0], 0) == 0;
    } else {
      assert Nth(rest, !order[0], 0) == 0;
      assert Nth(rest, order[0], 0) >= 1;
    }
  }

  predicate Accepted(stage: Stage) {
    stage == Answered(Answer(Ok(true), None))
  }

  /** One check is over and its key stored; the other, not begun, will be refused. */
  lemma {:induction false} LateIsRefused(h: Handshakes, o: Offer, late: bool, order: seq<bool>)
    requires StageOf(h, !late).Answered? && StageOf(h, late) == Begun && o.a != o.b
    requires h.store.cache.Some? && Holds(h.store, MakeKey(o.host, o.port), KeyOf(o, !late))
    ensures var h' := Turns(h, o, order);
            && StageOf(h', !late) == StageOf(h, !late)
            && StageOf(h', late) in {Begun, Answered(Answer(Ok(false), Some(KeyMismatch(KeyOf(o, !late), KeyOf(o, late)))))}
    decreases |order|
  {
    if order != [] {
      if order[0] == late {
        BothAnswered(Turn(h, o, late), o, order[1..]);
      } else {
        LateIsRefused(Turn(h, o, order[0]), o, late, order[1..]);
      }
    }
  }

  lemma {:induction false} BothAnswered(h: Handshakes, o: Offer, order: seq<bool>)
    requires h.a.Answered? && h.b.Answered?
    ensures Turns(h, o, order) == h
    decreases |order|
  {
    if order != [] {
      BothAnswered(h, o, order[1..]);
    }
  }

  /** Two checks past their verdicts both accept, whichever trusts first. */
  lemma {:induction false} TrustingAccept(h: Handshakes, o: Offer, order: seq<bool>)
    requires h.store.cache.Some? && (h.a == Trusting || Accepted(h.a)) && (h.b == Trusting || Accepted(h.b))
    ensures var h' := Turns(h, o, order); (h'.a == Trusting || Accepted(h'.a)) && (h'.b == Trusting || Accepted(h'.b))
    decreases |order|
  {
    if order != [] {
      TrustingAccept(Turn(h, o, order[0]), o, order[1..]);
    }
  }

  /**
   Two overlapping checks of an endpoint not on file, offering different keys, in any order of
   their windows: both keys are accepted exactly when each check verifies before the other
   trusts. Otherwise the check that came first is accepted and the other refused, told of the
   first one's key.
   */
  lemma OverlappingChecksIff(st: Store, o: Offer, order: seq<bool>)
    requires MakeKey(o.host, o.port) !in Effective(st) && o.a != o.b
    requires var h := Turns(Handshakes(st, Begun, Begun), o, order); h.a.Answered? && h.b.Answered?
    ensures order != []
    ensures var h := Turns(Handshakes(st, Begun, Begun), o, order);
            && (Accepted(h.a) && Accepted(h.b) <==> VerifyFirst(order))
            && (!VerifyFirst(order) ==>
                  && Accepted(StageOf(h, order[0]))
                  && StageOf(h, !order[0]) ==
                     Answered(Answer(Ok(false), Some(KeyMismatch(KeyOf(o, order[0]), KeyOf(o, !order[0]))))))
  {
    var h0 := Handshakes(st, Begun, Begun);
    assert order != [];
    var x := order[0];
    var h1 := Turn(h0, o, x);
    assert StageOf(h1, x) == Trusting && StageOf(h1, !x) == Begun && Effective(h1.store) == Effective(st);
    assert |order| >= 2;
    var rest := order[2..];
    assert order[1..][1..] == rest && order[1..][0] == order[1];
    var h2 := Turn(h1, o, order[1]);
    assert Turns(h0, o, order) == Turns(h2, o, rest);
    VerifyFirstIff(order);
    if order[1] == x {
      LateIsRefused(h2, o, !x, rest);
    } else {
      TrustingAccept(h2, o, rest);
    }
  }

  /** Such an order: verify, verify, trust, trust. */
  lemma OverlappingChecksBothAccept(st: Store, o: Offer)
    requires MakeKey(o.host, o.port) !in Effective(st) && o.a != o.b
    ensures var h := Turns(Handshakes(st, Begun, Begun), o, [true, false, true, false]); Accepted(h.a) && Accepted(h.b)
  {
    var h0 := Handshakes(st, Begun, Begun);
    var h1 := Turn(h0, o, true);
    var h2 := Turn(h1, o, false);
    var h3 := Turn(h2, o, true);
    assert Turns(h3, o, [false]) == Turns(Turn(h3, o, false), o, []);
    assert [true, false][1..] == [false] && [false, true, false][1..] == [true, false];
    assert [true, false, true, false][1..] == [false, true, false];
  }
}
