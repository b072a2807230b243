/**
 * The Android proxy status mailbox (rust/crates/android-ffi/src/lib.rs): the newest status of each
 * host, bounded in hosts and in trace bytes, oldest evicted first.
 */
module StatusMailbox {
  import opened Prelude

  const MAX_HOSTS: nat := 8
  const MAX_TRACE_BYTES: nat := 64 * 1024
  const U64_MAX: nat := 0xffff_ffff_ffff_ffff

  /** `other` holds the fields that the mailbox never looks at. */
  datatype Status = Status(generation: u64, host: string, mainFrame: bool, trace: Option<seq<byte>>, other: seq<byte>)

  datatype Pending = Pending(sequence: u64, status: Status)

  datatype State = State(active: bool, nextSequence: u64, retained: nat, latest: map<string, Pending>)

  function TraceBytes(s: Status): nat {
    if s.trace.Some? then |s.trace.value| else 0
  }

  function SaturatingAdd(a: nat, b: nat): nat { if a + b > U64_MAX then U64_MAX else a + b }

  function SaturatingSub(a: nat, b: nat): nat { if a < b then 0 else a - b }

  // ---------------------------------------------------------------- the state as a value

  ghost function Sum(m: map<string, Pending>): nat
    decreases |m|
  {
    if m == map[] then 0
    else
      var host :| host in m;
      TraceBytes(m[host].status) + Sum(m - {host})
  }

  lemma {:induction false} SumWithout(m: map<string, Pending>, host: string)
    requires host in m
    ensures Sum(m) == TraceBytes(m[host].status) + Sum(m - {host})
    decreases |m|
  {
    var picked :| picked in m && Sum(m) == TraceBytes(m[picked].status) + Sum(m - {picked});
    if picked != host {
      SumWithout(m - {picked}, host);
      SumWithout(m - {host}, picked);
      assert m - {picked} - {host} == m - {host} - {picked};
    }
  }

  lemma SumWith(m: map<string, Pending>, host: string, p: Pending)
    requires host !in m
    ensures Sum(m[host := p]) == Sum(m) + TraceBytes(p.status)
  {
    SumWithout(m[host := p], host);
    assert m[host := p] - {host} == m;
  }

  ghost predicate Distinct(m: map<string, Pending>) {
    forall g, h | g in m && h in m && g != h :: m[g].sequence != m[h].sequence
  }

  /** Every entry is filed under its own host with a sequence handed out so far. */
  ghost predicate Filed(m: map<string, Pending>, last: u64) {
    forall h | h in m :: m[h].status.host == h && 1 <= m[h].sequence <= last
  }

  /** Everything but the two limits. */
  ghost predicate Accurate(st: State) {
    st.retained == Sum(st.latest) && Filed(st.latest, st.nextSequence) && Distinct(st.latest)
  }

  ghost predicate Valid(st: State) {
    Accurate(st) && |st.latest| <= 8 && st.retained <= 65536 && (!st.active ==> st.latest == map[])
  }

  /** The entry with the smallest sequence. */
  ghost predicate IsOldest(m: map<string, Pending>, host: string) {
    host in m && forall h | h in m :: m[host].sequence <= m[h].sequence
  }

  ghost function Oldest(m: map<string, Pending>): (host: string)
    requires m != map[]
    ensures IsOldest(m, host)
  {
    OldestExists(m);
    var host :| IsOldest(m, host);
    host
  }

  lemma {:induction false} OldestExists(m: map<string, Pending>)
    requires m != map[]
    ensures exists host :: IsOldest(m, host)
    decreases |m|
  {
    var first :| first in m;
    var rest := m - {first};
    assert forall h | h in m :: h == first || h in rest;
    if rest == map[] {
      assert IsOldest(m, first);
    } else {
      OldestExists(rest);
      var host :| IsOldest(rest, host);
      assert IsOldest(m, if m[first].sequence <= m[host].sequence then first else host);
    }
  }

  lemma WithoutOldest(m: map<string, Pending>, host: string)
    requires IsOldest(m, host) && Distinct(m)
    ensures host in m && |m - {host}| < |m| && Distinct(m - {host})
  {
    assert (m - {host}).Keys == m.Keys - {host};
  }

  function Full(latest: map<string, Pending>, retained: nat, bytes: nat): bool {
    |latest| >= MAX_HOSTS || SaturatingAdd(retained, bytes) > MAX_TRACE_BYTES
  }

  /** Evicts oldest-first until the new entry fits or nothing is left. */
  ghost function Evict(st: State, bytes: nat): State
    decreases |st.latest|
  {
    if !Full(st.latest, st.retained, bytes) || st.latest == map[] then st
    else
      var oldest := Oldest(st.latest);
      Evict(st.(latest := st.latest - {oldest},
                retained := SaturatingSub(st.retained, TraceBytes(st.latest[oldest].status))), bytes)
  }

  lemma EvictStep(st: State, bytes: nat)
    ensures !Full(st.latest, st.retained, bytes) || st.latest == map[] ==> Evict(st, bytes) == st
    ensures Full(st.latest, st.retained, bytes) && st.latest != map[] ==>
      Evict(st, bytes) == Evict(Remove(st, Oldest(st.latest)), bytes)
  {
  }

  function Bounded(s: Status): Status {
    if TraceBytes(s) > MAX_TRACE_BYTES then s.(trace := None) else s
  }

  /** A fresh sequence number; at the end of the range everything pending is dropped. */
  function Numbered(st: State): State {
    if st.nextSequence == U64_MAX then State(st.active, 1, 0, map[]) else st.(nextSequence := st.nextSequence + 1)
  }

  function Remove(st: State, host: string): State {
    if host in st.latest then
      st.(latest := st.latest - {host}, retained := SaturatingSub(st.retained, TraceBytes(st.latest[host].status)))
    else st
  }

  ghost function Record(st: State, status: Status): State {
    if !status.mainFrame || !st.active then st
    else
      var s := Bounded(status);
      var room := Evict(Remove(Numbered(st), s.host), TraceBytes(s));
      room.(latest := room.latest[s.host := Pending(room.nextSequence, s)],
            retained := SaturatingAdd(room.retained, TraceBytes(s)))
  }

  function Peek(st: State, generation: u64, host: string): Option<Pending> {
    if st.active && host in st.latest && st.latest[host].status.generation == generation then Some(st.latest[host]) else None
  }

  predicate Acknowledges(st: State, generation: u64, host: string, sequence: u64) {
    st.active && host in st.latest && st.latest[host].sequence == sequence && st.latest[host].status.generation == generation
  }

  function Acknowledge(st: State, generation: u64, host: string, sequence: u64): State {
    if Acknowledges(st, generation, host, sequence) then Remove(st, host) else st
  }

  function Deactivate(st: State): State {
    st.(active := false, retained := 0, latest := map[])
  }

  // ---------------------------------------------------------------- the mutable mailbox

  class Mailbox {
    var active: bool
    var nextSequence: u64
    var retained: nat
    var latest: map<string, Pending>

    ghost function View(): State
      reads this
    {
      State(active, nextSequence, retained, latest)
    }

    constructor ()
      ensures View() == State(true, 0, 0, map[]) && Valid(View())
    {
      active, nextSequence, retained, latest := true, 0, 0, map[];
    }

    method DeactivateMailbox()
      modifies this
      ensures View() == Deactivate(old(View()))
    {
      active := false;
      retained := 0;
      latest := map[];
    }

    method PeekMatching(generation: u64, host: string) returns (r: Option<Pending>)
      ensures r == Peek(View(), generation, host)
    {
      if !active {
        return None;
      }
      if host in latest && latest[host].status.generation == generation {
        return Some(latest[host]);
      }
      return None;
    }

    method AcknowledgeMatching(generation: u64, host: string, sequence: u64) returns (removed: bool)
      modifies this
      ensures removed == Acknowledges(old(View()), generation, host, sequence)
      ensures View() == Acknowledge(old(View()), generation, host, sequence)
    {
      if !active || host !in latest || latest[host].sequence != sequence || latest[host].status.generation != generation {
        return false;
      }
      retained := SaturatingSub(retained, TraceBytes(latest[host].status));
      latest := latest - {host};
      return true;
    }

    method DiscardMatching(generation: u64, host: string) returns (removed: bool)
      modifies this
      ensures removed == Peek(old(View()), generation, host).Some?
      ensures View() == if removed then Remove(old(View()), host) else old(View())
    {
      var pending := PeekMatching(generation, host);
      if pending.None? {
        return false;
      }
      removed := AcknowledgeMatching(generation, host, pending.value.sequence);
    }

    /** The scan over the entries for the smallest sequence; sequences are distinct. */
    method OldestHost() returns (host: string)
      requires Distinct(latest) && latest != map[]
      ensures host == Oldest(latest)
    {
      var hosts := latest.Keys;
      host :| host in hosts;
      var rest := hosts - {host};
      while rest != {}
        invariant host in latest && rest <= latest.Keys
        invariant forall h | h in latest && h !in rest :: latest[host].sequence <= latest[h].sequence
        decreases |rest|
      {
        var h :| h in rest;
        rest := rest - {h};
        if latest[h].sequence < latest[host].sequence {
          host := h;
        }
      }
    }

    method RecordStatus(status: Status)
      requires Valid(View())
      modifies this
      ensures View() == Record(old(View()), status)
    {
      if !status.mainFrame {
        return;
      }
      var s := Bounded(status);
      var bytes := TraceBytes(s);
      if !active {
        return;
      }
      if nextSequence == U64_MAX {
        nextSequence := 0;
        retained := 0;
        latest := map[];
      }
      nextSequence := nextSequence + 1;
      if s.host in latest {
        retained := SaturatingSub(retained, TraceBytes(latest[s.host].status));
        latest := latest - {s.host};
      }
      ghost var start := View();
      assert start == Remove(Numbered(old(View())), s.host);
      assert Distinct(latest);
      hide Evict, Oldest, IsOldest, Distinct, Sum, Valid, Bounded, TraceBytes;
      EvictStep(View(), bytes);
      while |latest| >= MAX_HOSTS || SaturatingAdd(retained, bytes) > MAX_TRACE_BYTES
        invariant active == start.active && nextSequence == start.nextSequence
        invariant Distinct(latest)
        invariant Evict(start, bytes) == Evict(View(), bytes)
        decreases |latest|
      {
        EvictStep(View(), bytes);
        if latest == map[] {
          break;
        }
        var oldest := OldestHost();
        WithoutOldest(latest, oldest);
        retained := SaturatingSub(retained, TraceBytes(latest[oldest].status));
        latest := latest - {oldest};
      }
      EvictStep(View(), bytes);
      assert View() == Evict(start, bytes);
      retained := SaturatingAdd(retained, bytes);
      latest := latest[s.host := Pending(nextSequence, s)];
    }
  }

  // ---------------------------------------------------------------- what every operation keeps

  lemma RemoveIsAccurate(st: State, host: string)
    requires Accurate(st)
    ensures Accurate(Remove(st, host)) && Remove(st, host).latest == st.latest - {host}
    ensures Remove(st, host).retained <= st.retained
  {
    if host in st.latest {
      SumWithout(st.latest, host);
    } else {
      assert st.latest - {host} == st.latest;
    }
  }

  ghost predicate Fits(m: map<string, Pending>, bytes: nat) {
    |m| < 8 && Sum(m) + bytes <= 65536
  }

  /** `part` keeps entries of `all` unchanged, and whatever it lacks is older than whatever it keeps. */
  ghost predicate NewestPart(all: map<string, Pending>, part: map<string, Pending>) {
    && (forall h | h in part :: h in all && part[h] == all[h])
    && (forall g, h | g in all && g !in part && h in part :: all[g].sequence < part[h].sequence)
  }

  /** `kept` is the largest newest part that leaves room for the new entry. */
  ghost predicate KeepsTheMost(all: map<string, Pending>, kept: map<string, Pending>, bytes: nat) {
    && NewestPart(all, kept)
    && Fits(kept, bytes)
    && forall part | NewestPart(all, part) && Fits(part, bytes) :: part.Keys <= kept.Keys
  }

  lemma FullMeansNoRoom(st: State, bytes: nat)
    requires Accurate(st) && st.retained <= MAX_TRACE_BYTES && bytes <= MAX_TRACE_BYTES
    ensures Full(st.latest, st.retained, bytes) <==> !Fits(st.latest, bytes)
    ensures st.latest == map[] ==> !Full(st.latest, st.retained, bytes)
  {
    hide Filed, Distinct;
  }

  lemma WholePartIsNewest(all: map<string, Pending>)
    ensures NewestPart(all, all)
    ensures forall part | NewestPart(all, part) :: part.Keys <= all.Keys
  {
  }

  /** A newest part without the oldest entry, and what else can be a newest part. */
  lemma PartsWithoutOldest(all: map<string, Pending>, oldest: string, part: map<string, Pending>)
    requires IsOldest(all, oldest) && Distinct(all)
    ensures NewestPart(all - {oldest}, part) ==> NewestPart(all, part)
    ensures NewestPart(all, part) ==> part == all || NewestPart(all - {oldest}, part)
  {
    var rest := all - {oldest};
    if NewestPart(all, part) && part != all {
      assert exists g :: g in all && g !in part;
      assert oldest !in part;
    }
    if NewestPart(rest, part) {
      forall g, h | g in all && g !in part && h in part
        ensures all[g].sequence < part[h].sequence
      {
        assert h in rest && rest[h] == all[h];
        assert g == oldest || g in rest;
      }
    }
  }

  lemma {:induction false} EvictKeepsTheMost(st: State, bytes: nat)
    requires Accurate(st) && st.retained <= MAX_TRACE_BYTES && bytes <= MAX_TRACE_BYTES
    ensures var e := Evict(st, bytes);
      && Accurate(e) && e.active == st.active && e.nextSequence == st.nextSequence
      && KeepsTheMost(st.latest, e.latest, bytes)
    decreases |st.latest|
  {
    hide Fits, NewestPart, Full, IsOldest, Distinct, Filed, Sum;
    FullMeansNoRoom(st, bytes);
    if Full(st.latest, st.retained, bytes) {
      var oldest := Oldest(st.latest);
      var next := Remove(st, oldest);
      RemoveIsAccurate(st, oldest);
      WithoutOldest(st.latest, oldest);
      EvictKeepsTheMost(next, bytes);
      var e := Evict(next, bytes);
      assert Evict(st, bytes) == e;
      PartsWithoutOldest(st.latest, oldest, e.latest);
      forall part | NewestPart(st.latest, part) && Fits(part, bytes)
        ensures part.Keys <= e.latest.Keys
      {
        PartsWithoutOldest(st.latest, oldest, part);
      }
    } else {
      WholePartIsNewest(st.latest);
    }
  }

  lemma NumberedIsAccurate(st: State)
    requires Valid(st)
    ensures var n := Numbered(st);
      && Accurate(n) && n.retained <= MAX_TRACE_BYTES && n.nextSequence >= 1 && n.active == st.active
      && (forall h | h in n.latest :: n.latest[h].sequence < n.nextSequence)
  {
  }

  /** Recording, once room has been made. */
  function Placed(room: State, s: Status): State {
    State(room.active, room.nextSequence, room.retained + TraceBytes(s), room.latest[s.host := Pending(room.nextSequence, s)])
  }

  /** Adding the freshest entry to a state with room for it. */
  lemma FreshestEntry(room: State, s: Status)
    requires Accurate(room) && Fits(room.latest, TraceBytes(s)) && s.host !in room.latest && room.active
    requires 1 <= room.nextSequence
    requires forall h | h in room.latest :: room.latest[h].sequence < room.nextSequence
    ensures Valid(Placed(room, s))
  {
    var p := Pending(room.nextSequence, s);
    var m := room.latest[s.host := p];
    SumWith(room.latest, s.host, p);
    assert m.Keys == room.latest.Keys + {s.host};
    FreshestIsDistinct(room.latest, s.host, p);
    hide Distinct, Filed, Sum, TraceBytes;
  }

  lemma FreshestIsDistinct(m: map<string, Pending>, host: string, p: Pending)
    requires host !in m && p.status.host == host && 1 <= p.sequence
    requires Distinct(m) && forall h | h in m :: m[h].sequence < p.sequence
    requires exists last: u64 :: Filed(m, last)
    ensures Distinct(m[host := p]) && Filed(m[host := p], p.sequence)
  {
  }

  /** A trace of more than 64 KiB is dropped, and with it nothing else. */
  ghost function Stored(status: Status): Status {
    if status.trace.Some? && |status.trace.value| > 65536 then status.(trace := None) else status
  }

  /**
   * What recording a status keeps: the entries of other hosts, as many of the newest as fit; all of
   * them go when the sequence starts over behind 2^64 - 1.
   */
  ghost predicate RecordsStatus(st: State, status: Status, after: State) {
    var over := st.nextSequence == 0xffff_ffff_ffff_ffff;
    var others := if over then map[] else st.latest - {status.host};
    && after.active && after.nextSequence == (if over then 1 else st.nextSequence + 1)
    && status.host in after.latest && after.latest[status.host] == Pending(after.nextSequence, Stored(status))
    && KeepsTheMost(others, after.latest - {status.host}, TraceBytes(Stored(status)))
  }

  /**
   * Recording a status: the limits hold again, the byte total is exact, the new entry is the
   * newest one, and what had to go went oldest-first and no further than needed.
   */
  lemma RecordIsExact(st: State, status: Status)
    requires Valid(st)
    ensures Valid(Record(st, status))
    ensures status.mainFrame && st.active ==> RecordsStatus(st, status, Record(st, status))
    ensures !(status.mainFrame && st.active) ==> Record(st, status) == st
  {
    if status.mainFrame && st.active {
      hide Evict, Valid, Accurate, KeepsTheMost, Fits, Sum, Bounded, TraceBytes;
      var s := Bounded(status);
      var bytes := TraceBytes(s);
      assert bytes <= MAX_TRACE_BYTES by { BoundedFits(status); }
      var n := Numbered(st);
      NumberedIsAccurate(st);
      RemoveIsAccurate(n, s.host);
      hide Numbered;
      var start := Remove(n, s.host);
      EvictKeepsTheMost(start, bytes);
      var room := Evict(start, bytes);
      RoomIsOlder(n, s.host, room.latest, bytes);
      RoomForEntry(room, bytes);
      FreshestEntry(room, s);
      hide *;
      RecordSplits(st, status);
      RecordedAll(st, status, room, Record(st, status));
    }
  }

  lemma RecordSplits(st: State, status: Status)
    requires status.mainFrame && st.active
    ensures var s := Bounded(status); var room := Evict(Remove(Numbered(st), s.host), TraceBytes(s));
      SaturatingAdd(room.retained, TraceBytes(s)) == room.retained + TraceBytes(s) ==> Record(st, status) == Placed(room, s)
  {
    hide Evict, Bounded, Numbered, Remove, TraceBytes;
  }

  lemma RecordedAll(st: State, status: Status, room: State, after: State)
    requires var s := Bounded(status); var n := Numbered(st);
      && after == Placed(room, s) && room.active && room.nextSequence == n.nextSequence && s.host !in room.latest
      && KeepsTheMost(n.latest - {s.host}, room.latest, TraceBytes(s))
    ensures RecordsStatus(st, status, after)
  {
    assert Bounded(status) == Stored(status);
    hide KeepsTheMost, Bounded, TraceBytes;
    assert after.latest - {status.host} == room.latest;
    var nothing: map<string, Pending> := map[];
    assert nothing - {status.host} == nothing;
  }

  lemma BoundedFits(status: Status)
    ensures TraceBytes(Bounded(status)) <= MAX_TRACE_BYTES
  {
  }

  lemma RoomIsOlder(n: State, host: string, kept: map<string, Pending>, bytes: nat)
    requires forall h | h in n.latest :: n.latest[h].sequence < n.nextSequence
    requires KeepsTheMost(n.latest - {host}, kept, bytes)
    ensures host !in kept
    ensures forall h | h in kept :: h in n.latest && kept[h] == n.latest[h] && kept[h].sequence < n.nextSequence
    ensures Fits(kept, bytes)
  {
    hide Fits;
  }

  lemma RoomForEntry(room: State, bytes: nat)
    requires Accurate(room) && Fits(room.latest, bytes)
    ensures SaturatingAdd(room.retained, bytes) == room.retained + bytes
  {
  }

  /** Acknowledging, peeking and deactivating keep the state valid too. */
  lemma AcknowledgeKeepsValid(st: State, generation: u64, host: string, sequence: u64)
    requires Valid(st)
    ensures Valid(Acknowledge(st, generation, host, sequence)) && Valid(Deactivate(st))
  {
    assert Accurate(st);
    RemoveIsAccurate(st, host);
    if host in st.latest {
      assert |st.latest - {host}| == |st.latest| - 1;
    }
  }

  /** What has been recorded is what a peek of its host and generation sees, and no other generation sees it. */
  lemma RecordedIsPeeked(st: State, status: Status, generation: u64)
    requires Valid(st) && st.active && status.mainFrame
    ensures var after := Record(st, status);
      Peek(after, generation, status.host)
        == if generation == status.generation then Some(Pending(after.nextSequence, Stored(status))) else None
  {
    RecordIsExact(st, status);
    hide Record, KeepsTheMost, Valid;
  }

  /** An acknowledgement removes its entry exactly if a peek of the host and generation sees that sequence. */
  lemma AcknowledgesWhatIsPeeked(st: State, generation: u64, host: string, sequence: u64)
    requires Valid(st)
    ensures var next := Acknowledge(st, generation, host, sequence);
      var seen := Peek(st, generation, host);
      if seen.Some? && seen.value.sequence == sequence then
        next.latest == st.latest - {host} && next.retained == st.retained - TraceBytes(seen.value.status)
        && next.active == st.active && next.nextSequence == st.nextSequence
      else next == st
  {
    if host in st.latest {
      SumWithout(st.latest, host);
    }
  }

  // ---------------------------------------------------------------- runs

  /** A discard is a peek, which changes nothing, and then the acknowledgement of what it saw. */
  datatype Operation =
    | Recording(status: Status)
    | Acknowledging(generation: u64, host: string, sequence: u64)
    | Deactivating

  ghost function Step(st: State, op: Operation): State {
    match op
    case Recording(status) => Record(st, status)
    case Acknowledging(generation, host, sequence) => Acknowledge(st, generation, host, sequence)
    case Deactivating => Deactivate(st)
  }

  ghost function Run(st: State, ops: seq<Operation>): State
    decreases |ops|
  {
    if ops == [] then st else Run(Step(st, ops[0]), ops[1..])
  }

  lemma {:induction false} RunKeepsValid(st: State, ops: seq<Operation>)
    requires Valid(st)
    ensures Valid(Run(st, ops))
    decreases |ops|
  {
    hide Valid, Record, Acknowledge, Deactivate;
    if ops != [] {
      match ops[0] {
        case Recording(status) => RecordIsExact(st, status);
        case Acknowledging(generation, host, sequence) => AcknowledgeKeepsValid(st, generation, host, sequence);
        case Deactivating => AcknowledgeKeepsValid(st, 0, "", 0);
      }
      RunKeepsValid(Step(st, ops[0]), ops[1..]);
    }
  }

  /** Once deactivated, the mailbox stays empty whatever is recorded. */
  lemma {:induction false} InactiveStaysEmpty(st: State, ops: seq<Operation>)
    requires !st.active && st.latest == map[] && st.retained == 0
    ensures !Run(st, ops).active && Run(st, ops).latest == map[] && Run(st, ops).retained == 0
    decreases |ops|
  {
    if ops != [] {
      InactiveStaysEmpty(Step(st, ops[0]), ops[1..]);
    }
  }

  /** The step starts the sequence over and drops everything pending. */
  predicate Wraps(st: State, op: Operation) {
    op.Recording? && op.status.mainFrame && st.active && st.nextSequence == U64_MAX
  }

  ghost predicate NeverWraps(st: State, ops: seq<Operation>)
    decreases |ops|
  {
    ops == [] || (!Wraps(st, ops[0]) && NeverWraps(Step(st, ops[0]), ops[1..]))
  }

  /** Until the sequence wraps, an old sequence number still means the entry it meant before. */
  ghost predicate SameBelow(before: State, after: State) {
    && before.nextSequence <= after.nextSequence
    && forall h | h in after.latest && after.latest[h].sequence <= before.nextSequence ::
         h in before.latest && after.latest[h] == before.latest[h]
  }

  lemma StepIsSameBelow(st: State, op: Operation)
    requires Valid(st) && !Wraps(st, op)
    ensures SameBelow(st, Step(st, op))
  {
    if op.Recording? && op.status.mainFrame && st.active {
      RecordIsExact(st, op.status);
      RecordedIsSameBelow(st, op.status, Record(st, op.status));
    } else {
      hide Valid, Evict;
    }
  }

  lemma RecordedIsSameBelow(st: State, status: Status, after: State)
    requires st.nextSequence < U64_MAX && RecordsStatus(st, status, after)
    ensures SameBelow(st, after)
  {
    hide Fits;
    var host := status.host;
    forall h | h in after.latest && after.latest[h].sequence <= st.nextSequence
      ensures h in st.latest && after.latest[h] == st.latest[h]
    {
      assert h != host;
      assert h in after.latest - {host};
    }
  }

  lemma {:induction false} RunIsSameBelow(st: State, ops: seq<Operation>)
    requires Valid(st) && NeverWraps(st, ops)
    ensures SameBelow(st, Run(st, ops))
    decreases |ops|
  {
    hide Valid, Step;
    if ops != [] {
      var next := Step(st, ops[0]);
      StepIsSameBelow(st, ops[0]);
      RunKeepsValid(st, [ops[0]]);
      assert [ops[0]][1..] == [] && Run(st, [ops[0]]) == Run(next, []) == next;
      RunIsSameBelow(next, ops[1..]);
    }
  }

  /**
   * A status peeked earlier, then any run in which the sequence does not start over: acknowledging it
   * removes that very entry if it is still there, and otherwise changes nothing. A newer status of
   * the host is never removed.
   */
  lemma StaleAcknowledgeIsHarmless(st: State, generation: u64, host: string, ops: seq<Operation>)
    requires Valid(st) && NeverWraps(st, ops) && Peek(st, generation, host).Some?
    ensures var p := Peek(st, generation, host).value; var later := Run(st, ops);
      && (Peek(later, generation, host) == Some(p) ==>
            Acknowledge(later, generation, host, p.sequence).latest == later.latest - {host})
      && (Peek(later, generation, host) != Some(p) ==> Acknowledge(later, generation, host, p.sequence) == later)
  {
    RunIsSameBelow(st, ops);
  }

  /** At the wrap the guarantee ends: a stale acknowledgement removes the new status. */
  lemma WrapReusesSequences(status: Status)
    requires status == Status(7, "host", true, None, [])
    ensures var stale := State(true, U64_MAX, 0, map["host" := Pending(1, status)]);
      var newer := status.(other := [1]);
      && Valid(stale) && Peek(stale, 7, "host") == Some(Pending(1, status))
      && Record(stale, newer).latest == map["host" := Pending(1, newer)]
      && Acknowledge(Record(stale, newer), 7, "host", 1).latest == map[]
  {
    var m := map["host" := Pending(1, status)];
    SumWithout(m, "host");
    assert m - {"host"} == map[];
    var start := State(true, U64_MAX, 0, m);
    assert Numbered(start) == State(true, 1, 0, map[]);
    var newer := status.(other := [1]);
    assert Remove(Numbered(start), "host") == Numbered(start);
    assert Evict(Numbered(start), 0) == Numbered(start);
    assert Record(start, newer).latest == map[]["host" := Pending(1, newer)];
  }
}
