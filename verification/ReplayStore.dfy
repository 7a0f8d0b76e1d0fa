/** The stores that remember consumed grant identifiers (`jti`) until no check would accept the grant. */
module ReplayStore {
  import opened Text

  const CLOCK_SKEW_SECONDS: real := 60.0
  const MAX_TTL_SECONDS: real := 3600.0

  /** Consumed identifiers and the instant up to which each is kept. */
  type Entries = map<string, real>

  datatype Verdict = Accepted | Replay | SignatureInvalid

  /** `expires` is None where the expiry text cannot be parsed. */
  function RetentionUntil(expires: Option<real>, now: real): real {
    match expires
    case None => now + MAX_TTL_SECONDS + CLOCK_SKEW_SECONDS
    case Some(exp) => exp + CLOCK_SKEW_SECONDS
  }

  // ----- what the stores do, as functions -----

  function Purged(entries: Entries, now: real): Entries {
    map k | k in entries && now < entries[k] :: entries[k]
  }

  /** The verdict on an identifier, already stripped of white space. */
  function Judge(entries: Entries, key: string, now: real): Verdict {
    if key == "" then SignatureInvalid
    else if key in Purged(entries, now) then Replay
    else Accepted
  }

  /** The memory store purges on every call but one with a blank identifier. */
  function Remember(entries: Entries, key: string, expires: Option<real>, now: real): Entries {
    match Judge(entries, key, now)
    case SignatureInvalid => entries
    case Replay => Purged(entries, now)
    case Accepted => Purged(entries, now)[key := RetentionUntil(expires, now)]
  }

  /** The file: absent, something else than a store, or stored entries. */
  datatype StoreFile = Missing | Foreign | Stored(entries: Entries)

  function Loaded(file: StoreFile): Entries {
    if file.Stored? then file.entries else map[]
  }

  /** The file store writes only when it accepts. */
  function RememberInFile(file: StoreFile, key: string, expires: Option<real>, now: real): StoreFile {
    if Judge(Loaded(file), key, now).Accepted? then Stored(Remember(Loaded(file), key, expires, now)) else file
  }

  // ----- the stores -----

  /** Deletes the entries whose time has come, one key after the other. */
  method Purge(entries: Entries, now: real) returns (left: Entries)
    ensures left == Purged(entries, now)
  {
    left := entries;
    var dead := set k | k in entries && entries[k] <= now;
    while dead != {}
      invariant dead <= left.Keys <= entries.Keys
      invariant forall k | k in left :: left[k] == entries[k] && (k in dead <==> entries[k] <= now)
      invariant forall k | k in entries && now < entries[k] :: k in left
      decreases dead
    {
      var key :| key in dead;
      left := left - {key};
      dead := dead - {key};
    }
  }

  class MemoryJtiReplayStore {
    var entries: Entries

    constructor (initial: Entries)
      ensures entries == initial
    {
      entries := initial;
    }

    method Consume(jti: string, expires: Option<real>, now: real) returns (verdict: Verdict)
      modifies this
      ensures verdict == Judge(old(entries), Strip(jti), now)
      ensures entries == Remember(old(entries), Strip(jti), expires, now)
    {
      var key := Strip(jti);
      if key == "" {
        return SignatureInvalid;
      }
      entries := Purge(entries, now);
      if key in entries {
        return Replay;
      }
      entries := entries[key := RetentionUntil(expires, now)];
      return Accepted;
    }

    method Has(jti: string, now: real) returns (found: bool)
      modifies this
      ensures entries == Purged(old(entries), now)
      ensures found <==> Strip(jti) in Purged(old(entries), now)
    {
      entries := Purge(entries, now);
      found := Strip(jti) in entries;
    }
  }

  class FileJtiReplayStore {
    var file: StoreFile

    constructor (initial: StoreFile)
      ensures file == initial
    {
      file := initial;
    }

    method Load() returns (entries: Entries)
      ensures entries == Loaded(file)
    {
      match file
      case Missing => entries := map[];
      case Foreign => entries := map[];
      case Stored(stored) => entries := stored;
    }

    method Save(entries: Entries)
      modifies this
      ensures file == Stored(entries)
    {
      file := Stored(entries);
    }

    method Consume(jti: string, expires: Option<real>, now: real) returns (verdict: Verdict)
      modifies this
      ensures verdict == Judge(Loaded(old(file)), Strip(jti), now)
      ensures file == RememberInFile(old(file), Strip(jti), expires, now)
    {
      var key := Strip(jti);
      if key == "" {
        return SignatureInvalid;
      }
      var entries := Load();
      entries := Purge(entries, now);
      if key in entries {
        return Replay;
      }
      Save(entries[key := RetentionUntil(expires, now)]);
      return Accepted;
    }

    method Has(jti: string, now: real) returns (found: bool)
      ensures found <==> Strip(jti) in Purged(Loaded(file), now)
    {
      var entries := Load();
      entries := Purge(entries, now);
      found := Strip(jti) in entries;
    }
  }

  // ----- runs -----

  /** Calls on a store; `key` is the identifier without surrounding white space. */
  datatype Call =
    | Consume(key: string, expires: Option<real>, now: real)
    | Has(key: string, now: real)
    | Idle(now: real)  // a moment at which nobody asks the store

  datatype Reply = Consumed(verdict: Verdict) | Found(found: bool) | Silence

  function Answer(entries: Entries, call: Call): Reply {
    match call
    case Consume(key, _, now) => Consumed(Judge(entries, key, now))
    case Has(key, now) => Found(key in Purged(entries, now))
    case Idle(_) => Silence
  }

  function MemoryNext(entries: Entries, call: Call): Entries {
    match call
    case Consume(key, expires, now) => Remember(entries, key, expires, now)
    case Has(_, now) => Purged(entries, now)
    case Idle(_) => entries
  }

  function FileNext(file: StoreFile, call: Call): StoreFile {
    match call
    case Consume(key, expires, now) => RememberInFile(file, key, expires, now)
    case Has(_, _) => file
    case Idle(_) => file
  }

  function MemoryReplies(entries: Entries, calls: seq<Call>): seq<Reply>
    decreases |calls|
  {
    if calls == [] then []
    else [Answer(entries, calls[0])] + MemoryReplies(MemoryNext(entries, calls[0]), calls[1..])
  }

  function FileReplies(file: StoreFile, calls: seq<Call>): seq<Reply>
    decreases |calls|
  {
    if calls == [] then []
    else [Answer(Loaded(file), calls[0])] + FileReplies(FileNext(file, calls[0]), calls[1..])
  }

  ghost predicate NotBefore(calls: seq<Call>, since: real) {
    calls != [] ==> since <= calls[0].now && NotBefore(calls[1..], calls[0].now)
  }

  lemma PurgeTwice(entries: Entries, earlier: real, later: real)
    requires earlier <= later
    ensures Purged(Purged(entries, earlier), later) == Purged(entries, later)
  {
  }

  /** Stores that agree up to entries already due answer a call alike, and agree again after it. */
  lemma CallAgrees(entries: Entries, file: StoreFile, call: Call, since: real)
    requires Purged(entries, since) == Purged(Loaded(file), since) && since <= call.now
    ensures Purged(entries, call.now) == Purged(Loaded(file), call.now)
    ensures Answer(entries, call) == Answer(Loaded(file), call)
    ensures Purged(MemoryNext(entries, call), call.now) == Purged(Loaded(FileNext(file, call)), call.now)
  {
    PurgeTwice(entries, since, call.now);
    PurgeTwice(Loaded(file), since, call.now);
    PurgeTwice(entries, call.now, call.now);
  }

  /**
   * The two stores answer alike for ever once they agree up to entries that are already due,
   * although the memory store forgets such entries in calls that leave the file as it is.
   */
  lemma {:induction false} StoresAgree(entries: Entries, file: StoreFile, calls: seq<Call>, since: real)
    requires Purged(entries, since) == Purged(Loaded(file), since)
    requires NotBefore(calls, since)
    ensures MemoryReplies(entries, calls) == FileReplies(file, calls)
    decreases |calls|
  {
    if calls != [] {
      CallAgrees(entries, file, calls[0], since);
      StoresAgree(MemoryNext(entries, calls[0]), FileNext(file, calls[0]), calls[1..], calls[0].now);
    }
  }

  // ----- exactly which clocks keep the stores alike -----

  ghost predicate Nondecreasing(ts: seq<real>) { forall i | 0 <= i < |ts| - 1 :: ts[i] <= ts[i + 1] }

  function Instants(calls: seq<Call>): seq<real> { seq(|calls|, i requires 0 <= i < |calls| => calls[i].now) }

  ghost predicate AgreeAtFirst(entries: Entries, file: StoreFile, ts: seq<real>) {
    ts != [] ==> Purged(entries, ts[0]) == Purged(Loaded(file), ts[0])
  }

  /** From every start on which the stores agree, they answer every sequence of calls at these instants alike. */
  ghost predicate AlwaysAgree(ts: seq<real>) {
    forall entries: Entries, file: StoreFile, calls: seq<Call>
      | Instants(calls) == ts && AgreeAtFirst(entries, file, ts) ::
      MemoryReplies(entries, calls) == FileReplies(file, calls)
  }

  lemma {:induction false} NondecreasingCalls(calls: seq<Call>, since: real)
    requires Nondecreasing(Instants(calls)) && (calls != [] ==> since <= calls[0].now)
    ensures NotBefore(calls, since)
    decreases |calls|
  {
    if calls != [] {
      var ts, rest := Instants(calls), calls[1..];
      assert Instants(rest) == ts[1..];
      assert rest != [] ==> ts[0] <= ts[1];
      assert forall i | 0 <= i < |ts[1..]| :: ts[1..][i] == ts[i + 1];
      NondecreasingCalls(rest, calls[0].now);
    }
  }

  /** Asks for one identifier just before and just after the clock steps back. */
  function Probe(ts: seq<real>, n: nat): seq<Call> {
    seq(|ts|, i requires 0 <= i < |ts| => if i == n || i == n + 1 then Has("j", ts[i]) else Idle(ts[i]))
  }

  /**
   * Wherever the clock steps back, the stores differ on some calls: an identifier that is due at the later
   * instant is still in the file at the earlier one, while memory has dropped it.
   */
  lemma {:induction false} StoresDifferAfterClockStepsBack(ts: seq<real>, n: nat)
    requires n + 1 < |ts| && ts[n + 1] < ts[n]
    ensures var e: Entries := map["j" := ts[n]];
            MemoryReplies(e, Probe(ts, n)) != FileReplies(Stored(e), Probe(ts, n))
    decreases n
  {
    var e: Entries := map["j" := ts[n]];
    var calls := Probe(ts, n);
    if n > 0 {
      assert calls[1..] == Probe(ts[1..], n - 1);
      StoresDifferAfterClockStepsBack(ts[1..], n - 1);
      assert MemoryReplies(e, calls)[1..] == MemoryReplies(e, calls[1..]);
      assert FileReplies(Stored(e), calls)[1..] == FileReplies(Stored(e), calls[1..]);
    } else {
      assert "j" !in Purged(Purged(e, ts[0]), ts[1]) && "j" in Purged(e, ts[1]);
      assert MemoryReplies(e, calls)[1] == MemoryReplies(Purged(e, ts[0]), calls[1..])[0] == Found(false);
      assert FileReplies(Stored(e), calls)[1] == FileReplies(Stored(e), calls[1..])[0] == Found(true);
    }
  }

  /** The stores cannot be told apart exactly when the clock never steps back. */
  lemma StoresAgreeExactly(ts: seq<real>)
    ensures AlwaysAgree(ts) <==> Nondecreasing(ts)
  {
    if Nondecreasing(ts) {
      forall entries: Entries, file: StoreFile, calls: seq<Call>
        | Instants(calls) == ts && AgreeAtFirst(entries, file, ts)
        ensures MemoryReplies(entries, calls) == FileReplies(file, calls)
      {
        if calls != [] {
          assert ts[0] == calls[0].now;
          NondecreasingCalls(calls, ts[0]);
          StoresAgree(entries, file, calls, ts[0]);
        }
      }
    } else {
      var n :| 0 <= n < |ts| - 1 && ts[n + 1] < ts[n];
      StoresDifferAfterClockStepsBack(ts, n);
      assert Instants(Probe(ts, n)) == ts;
      var e: Entries := map["j" := ts[n]];
      assert AgreeAtFirst(e, Stored(e), ts);
    }
  }

  // ----- single use, on either store and in whatever order the calls get through -----

  datatype Store = InMemory(entries: Entries) | OnFile(file: StoreFile)

  function Held(s: Store): Entries {
    match s
    case InMemory(entries) => entries
    case OnFile(file) => Loaded(file)
  }

  function Asked(s: Store, call: Call): Store {
    match s
    case InMemory(entries) => InMemory(MemoryNext(entries, call))
    case OnFile(file) => OnFile(FileNext(file, call))
  }

  /** The store before call number `n`. */
  function StoreBefore(s: Store, calls: seq<Call>, n: nat): Store
    requires n <= |calls|
  {
    if n == 0 then s else Asked(StoreBefore(s, calls, n - 1), calls[n - 1])
  }

  ghost predicate Monotone(calls: seq<Call>) {
    forall i, j | 0 <= i <= j < |calls| :: calls[i].now <= calls[j].now
  }

  ghost predicate AcceptedAt(s: Store, calls: seq<Call>, i: nat) {
    i < |calls| && calls[i].Consume? && Judge(Held(StoreBefore(s, calls, i)), calls[i].key, calls[i].now).Accepted?
  }

  /** The instant recorded with a consumption. */
  function Until(call: Call): real
    requires call.Consume?
  {
    RetentionUntil(call.expires, call.now)
  }

  /** No call that carries an earlier instant removes or moves a recorded identifier. */
  lemma KeptByCall(s: Store, call: Call, key: string)
    requires key in Held(s) && call.now < Held(s)[key]
    ensures key in Held(Asked(s, call)) && Held(Asked(s, call))[key] == Held(s)[key]
  {
    assert key in Purged(Held(s), call.now);
  }

  lemma RefusedWhileKept(entries: Entries, key: string, now: real)
    requires key in entries && now < entries[key]
    ensures !Judge(entries, key, now).Accepted?
  {
  }

  lemma RecordedWhenAccepted(s: Store, call: Call)
    requires call.Consume? && Judge(Held(s), call.key, call.now).Accepted?
    ensures call.key in Held(Asked(s, call)) && Held(Asked(s, call))[call.key] == Until(call)
  {
  }

  /** An accepted identifier stays recorded, with its instant, until a call carries that instant or a later one. */
  lemma {:induction false} KeptUntilDue(s: Store, calls: seq<Call>, i: nat, n: nat)
    requires i < n <= |calls| && AcceptedAt(s, calls, i)
    requires forall m | i < m < n :: calls[m].now < Until(calls[i])
    ensures var key, after := calls[i].key, Held(StoreBefore(s, calls, n));
            key in after && after[key] == Until(calls[i])
    decreases n
  {
    if i + 1 < n {
      KeptUntilDue(s, calls, i, n - 1);
      KeptByCall(StoreBefore(s, calls, n - 1), calls[n - 1], calls[i].key);
    } else {
      RecordedWhenAccepted(StoreBefore(s, calls, i), calls[i]);
    }
  }

  /** Some call after `i`, up to `j`, carries this instant or a later one. */
  ghost predicate Reached(calls: seq<Call>, until: real, i: nat, j: nat) {
    exists n | i < n <= j && n < |calls| :: until <= calls[n].now
  }

  /** No identifier is consumed again before some call carries the instant it was recorded with. */
  lemma ConsumedOnce(s: Store, calls: seq<Call>, i: nat, j: nat)
    requires i < j && AcceptedAt(s, calls, i) && AcceptedAt(s, calls, j) && calls[i].key == calls[j].key
    ensures Reached(calls, Until(calls[i]), i, j)
  {
    if !Reached(calls, Until(calls[i]), i, j) {
      assert forall m | i < m <= j :: calls[m].now < Until(calls[i]);
      KeptUntilDue(s, calls, i, j);
      RefusedWhileKept(Held(StoreBefore(s, calls, j)), calls[j].key, calls[j].now);
    }
  }

  lemma ConsumedOnceInOrder(s: Store, calls: seq<Call>, i: nat, j: nat)
    requires Monotone(calls) && i < j && AcceptedAt(s, calls, i) && AcceptedAt(s, calls, j)
    requires calls[i].key == calls[j].key
    ensures match calls[i].expires
            case Some(exp) => exp + 60.0 <= calls[j].now
            case None => calls[i].now + 3660.0 <= calls[j].now
  {
    ConsumedOnce(s, calls, i, j);
  }

  // ----- exactly when an identifier is consumed again -----

  /** The call leaves a purged store: any question to memory, but only an acceptance to the file. */
  ghost predicate Purges(s: Store, calls: seq<Call>, n: nat)
    requires n < |calls|
  {
    match s
    case InMemory(_) => calls[n].Has? || (calls[n].Consume? && calls[n].key != "")
    case OnFile(_) => AcceptedAt(s, calls, n)
  }

  ghost predicate PurgedBetween(s: Store, calls: seq<Call>, until: real, i: nat, j: nat)
    requires j <= |calls|
  {
    exists m | i < m < j :: Purges(s, calls, m) && until <= calls[m].now
  }

  /** The identifier of call `l` is not accepted again between `l` and `n`. */
  ghost predicate NotBetween(s: Store, calls: seq<Call>, l: nat, n: nat)
    requires l < n <= |calls| && calls[l].Consume?
  {
    forall m | l < m < n && AcceptedAt(s, calls, m) :: calls[m].key != calls[l].key
  }

  lemma {:induction false} StoreKind(s: Store, calls: seq<Call>, n: nat)
    requires n <= |calls|
    ensures StoreBefore(s, calls, n).InMemory? <==> s.InMemory?
  {
    if n > 0 {
      StoreKind(s, calls, n - 1);
    }
  }

  lemma HeldAfterCall(s: Store, call: Call, key: string)
    requires !(call.Consume? && call.key == key && Judge(Held(s), key, call.now).Accepted?)
    ensures var purges := match s
              case InMemory(_) => call.Has? || (call.Consume? && call.key != "")
              case OnFile(_) => call.Consume? && Judge(Held(s), call.key, call.now).Accepted?;
            var after := Held(Asked(s, call));
      && (key in after <==> key in Held(s) && !(purges && Held(s)[key] <= call.now))
      && (key in after ==> after[key] == Held(s)[key])
  {
  }

  lemma {:induction false} HeldExactly(s: Store, calls: seq<Call>, l: nat, n: nat)
    requires l < n <= |calls| && AcceptedAt(s, calls, l) && NotBetween(s, calls, l, n)
    ensures var key, held := calls[l].key, Held(StoreBefore(s, calls, n));
      && (key in held <==> !PurgedBetween(s, calls, Until(calls[l]), l, n))
      && (key in held ==> held[key] == Until(calls[l]))
    decreases n
  {
    if l + 1 == n {
      RecordedWhenAccepted(StoreBefore(s, calls, l), calls[l]);
    } else {
      assert NotBetween(s, calls, l, n - 1);
      HeldExactly(s, calls, l, n - 1);
      StoreKind(s, calls, n - 1);
      HeldAfterCall(StoreBefore(s, calls, n - 1), calls[n - 1], calls[l].key);
      assert PurgedBetween(s, calls, Until(calls[l]), l, n)
        <==> || PurgedBetween(s, calls, Until(calls[l]), l, n - 1)
             || (Purges(s, calls, n - 1) && Until(calls[l]) <= calls[n - 1].now);
    }
  }

  /**
   * With no condition on the clock: after its last acceptance an identifier is accepted again exactly if the call
   * itself, or a purging call since then, carries the recorded instant or a later one.
   */
  lemma AcceptedAgainExactly(s: Store, calls: seq<Call>, l: nat, j: nat)
    requires l < j < |calls| && AcceptedAt(s, calls, l) && NotBetween(s, calls, l, j)
    requires calls[j].Consume? && calls[j].key == calls[l].key
    ensures AcceptedAt(s, calls, j)
       <==> Until(calls[l]) <= calls[j].now || PurgedBetween(s, calls, Until(calls[l]), l, j)
  {
    HeldExactly(s, calls, l, j);
  }

  lemma {:induction false} LastAccepted(s: Store, calls: seq<Call>, i: nat, j: nat) returns (l: nat)
    requires i < j <= |calls| && AcceptedAt(s, calls, i)
    ensures i <= l < j && AcceptedAt(s, calls, l) && calls[l].key == calls[i].key && NotBetween(s, calls, l, j)
    decreases j
  {
    if j == i + 1 {
      l := i;
    } else if AcceptedAt(s, calls, j - 1) && calls[j - 1].key == calls[i].key {
      l := j - 1;
    } else {
      l := LastAccepted(s, calls, i, j - 1);
    }
  }

  /** Every consumption of the identifier of call `i` that is accepted between `i` and `j` records the same instant. */
  ghost predicate OneInstant(s: Store, calls: seq<Call>, i: nat, j: nat)
    requires i < j <= |calls| && calls[i].Consume?
  {
    forall m | i < m < j && AcceptedAt(s, calls, m) && calls[m].key == calls[i].key ::
      Until(calls[m]) == Until(calls[i])
  }

  /** With instants in order: a grant's identifier is accepted again exactly from the recorded instant on. */
  lemma AcceptedAgainWhenDue(s: Store, calls: seq<Call>, i: nat, j: nat)
    requires Monotone(calls) && i < j < |calls| && AcceptedAt(s, calls, i) && OneInstant(s, calls, i, j)
    requires calls[j].Consume? && calls[j].key == calls[i].key
    ensures AcceptedAt(s, calls, j) <==> Until(calls[i]) <= calls[j].now
  {
    var l := LastAccepted(s, calls, i, j);
    AcceptedAgainExactly(s, calls, l, j);
  }

  /**
   * The clock is read before the lock is taken. A call that read it late but gets through early purges the entry,
   * so that one that read it early is accepted a second time.
   */
  lemma TwiceDespiteEarlyReadings(s: Store, key: string, other: string, exp: real, e: Option<real>, early: real)
    requires s == InMemory(map[]) || s == OnFile(Missing)
    requires key != "" && other != "" && key != other && early < exp + CLOCK_SKEW_SECONDS
    ensures var calls := [Consume(key, Some(exp), early), Consume(other, e, exp + CLOCK_SKEW_SECONDS),
                          Consume(key, Some(exp), early)];
            AcceptedAt(s, calls, 0) && AcceptedAt(s, calls, 2)
  {
    var late := exp + CLOCK_SKEW_SECONDS;
    var calls := [Consume(key, Some(exp), early), Consume(other, e, late), Consume(key, Some(exp), early)];
    var s1 := StoreBefore(s, calls, 1);
    assert Held(s) == map[] && StoreBefore(s, calls, 0) == s;
    assert s1 == Asked(s, calls[0]) && Held(s1) == map[key := late];
    var s2 := StoreBefore(s, calls, 2);
    assert s2 == Asked(s1, calls[1]) && key !in Held(s2);
  }
}
