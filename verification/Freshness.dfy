/**
 Freshness by change time: when the server trusts a directory cache it built
 earlier, and when a client that opens a remote file may keep its cached pages.
 Change times come from a coarse clock, so both add a precision to them.
 */
module Freshness {
  import opened Bytes

  // ----- times -----

  const NSEC_PER_SEC: int := 1_000_000_000

  datatype Time = Time(sec: int, nsec: int)

  predicate Normal(t: Time) {
    0 <= t.nsec < NSEC_PER_SEC
  }

  /** The time in nanoseconds. */
  function Ns(t: Time): int {
    t.sec * NSEC_PER_SEC + t.nsec
  }

  /** timespec64_compare */
  function Compare(a: Time, b: Time): int {
    if a.sec < b.sec then -1 else if a.sec > b.sec then 1 else a.nsec - b.nsec
  }

  /** timespec64_add */
  function Add(a: Time, b: Time): Time {
    var nsec := a.nsec + b.nsec;
    if nsec >= NSEC_PER_SEC then Time(a.sec + b.sec + 1, nsec - NSEC_PER_SEC) else Time(a.sec + b.sec, nsec)
  }

  /** msec_to_timespec */
  function FromMsec(msec: nat): Time {
    Time(msec / 1000, (msec % 1000) * 1_000_000)
  }

  /** Pairs of seconds and nanoseconds compare and add as the times they stand for. */
  lemma TimesAreNumbers(a: Time, b: Time, msec: nat)
    requires Normal(a) && Normal(b)
    ensures Compare(a, b) < 0 <==> Ns(a) < Ns(b)
    ensures Compare(a, b) == 0 <==> a == b
    ensures Normal(FromMsec(msec)) && Ns(FromMsec(msec)) == msec * 1_000_000
    ensures Normal(Add(a, b)) && Ns(Add(a, b)) == Ns(a) + Ns(b)
  {
  }

  // ----- the directory cache of the server -----

  datatype Header = Header(crtime: Time, ctime: Time)

  /** need_rebuild_dcache */
  predicate NeedRebuild(h: Header, ctime: Time, precision: nat) {
    Compare(ctime, h.ctime) != 0 || Compare(h.crtime, Add(ctime, FromMsec(precision))) < 0
  }

  /**
   A directory with its change time, and its cache: the header is taken when the
   rebuild starts, the entries are read one by one after that.  `atHeader` is what the
   directory held then, `lasting` what it has held ever since.
   */
  datatype DirState = DirState(clock: Time, entries: set<string>, ctime: Time,
                               header: Option<Header>, partial: set<string>, cached: Option<set<string>>,
                               atHeader: set<string>, lasting: set<string>)

  datatype DirEvent =
    | Tick(clock: Time)
    | Modify(entries: set<string>, stamp: Time)
    | SetHeader
    | ReadEntry(name: string)
    | Finish

  /** A change is stamped with a clock that lags by less than `lag` nanoseconds. */
  predicate StampOk(stamp: Time, clock: Time, lag: nat) {
    Normal(stamp) && Ns(clock) - lag < Ns(stamp)
  }

  /** iterate_dir reports what is there when it gets to it, and misses nothing that was there all along. */
  predicate DirEnabled(s: DirState, e: DirEvent, lag: nat) {
    match e
    case Tick(clock) => Normal(clock) && Ns(s.clock) <= Ns(clock)
    case Modify(_, stamp) => StampOk(stamp, s.clock, lag)
    case SetHeader => true
    case ReadEntry(name) => s.header.Some? && s.cached.None? && name in s.entries
    case Finish => s.header.Some? && s.cached.None? && s.lasting <= s.partial
  }

  function DirStep(s: DirState, e: DirEvent): DirState {
    match e
    case Tick(clock) => s.(clock := clock)
    case Modify(entries, stamp) => s.(entries := entries, ctime := stamp, lasting := s.lasting * entries)
    case SetHeader =>
      s.(header := Some(Header(s.clock, s.ctime)), partial := {}, cached := None,
         atHeader := s.entries, lasting := s.entries)
    case ReadEntry(name) => s.(partial := s.partial + {name})
    case Finish => s.(cached := Some(s.partial))
  }

  /** Nothing has changed since the header was taken. */
  predicate Untouched(s: DirState, h: Header) {
    && s.entries == s.atHeader == s.lasting && s.ctime == h.ctime && s.partial <= s.entries
    && (s.cached.Some? ==> s.cached.value == s.entries)
  }

  /** Either nothing changed since the header was taken, or the change shows in the change time. */
  predicate DirInv(s: DirState, lag: nat) {
    && Normal(s.clock) && Normal(s.ctime)
    && (s.header.Some? ==>
          var h := s.header.value;
          && Normal(h.crtime) && Normal(h.ctime) && Ns(h.crtime) <= Ns(s.clock)
          && (Untouched(s, h) || Ns(h.crtime) < Ns(s.ctime) + lag))
  }

  lemma DirStepInv(s: DirState, e: DirEvent, lag: nat)
    requires DirInv(s, lag) && DirEnabled(s, e, lag)
    ensures DirInv(DirStep(s, e), lag)
  {
  }

  predicate DirStepAt(states: seq<DirState>, events: seq<DirEvent>, lag: nat, k: int) {
    && 0 <= k < |events| && k + 1 < |states|
    && DirEnabled(states[k], events[k], lag) && states[k + 1] == DirStep(states[k], events[k])
  }

  ghost predicate DirRun(states: seq<DirState>, events: seq<DirEvent>, lag: nat) {
    && |states| == |events| + 1
    && Normal(states[0].clock) && Normal(states[0].ctime) && states[0].header.None? && states[0].cached.None?
    && forall k :: 0 <= k < |events| ==> DirStepAt(states, events, lag, k)
  }

  lemma {:induction false} DirRunInv(states: seq<DirState>, events: seq<DirEvent>, lag: nat, k: nat)
    requires DirRun(states, events, lag) && k < |states|
    ensures DirInv(states[k], lag)
  {
    if k > 0 {
      DirRunInv(states, events, lag, k - 1);
      assert DirStepAt(states, events, lag, k - 1);
      DirStepInv(states[k - 1], events[k - 1], lag);
    }
  }

  /** The cache is complete and the server would serve it. */
  predicate Accepted(s: DirState, precision: nat) {
    s.header.Some? && s.cached.Some? && !NeedRebuild(s.header.value, s.ctime, precision)
  }

  predicate CacheFresh(s: DirState) {
    s.cached.Some? ==> s.cached.value == s.entries
  }

  /** If stamps lag by no more than the precision, an accepted cache holds exactly the entries of the directory. */
  lemma AcceptedCacheIsFresh(states: seq<DirState>, events: seq<DirEvent>, lag: nat, precision: nat, k: nat)
    requires DirRun(states, events, lag) && k < |states| && Accepted(states[k], precision)
    requires lag <= Ns(FromMsec(precision))
    ensures CacheFresh(states[k])
  {
    DirRunInv(states, events, lag, k);
    var s := states[k];
    TimesAreNumbers(s.ctime, s.header.value.ctime, precision);
    TimesAreNumbers(s.ctime, FromMsec(precision), precision);
    TimesAreNumbers(s.header.value.crtime, Add(s.ctime, FromMsec(precision)), precision);
  }

  /** If they may lag further, a cache is accepted that lacks an entry. */
  lemma LateStampIsMissed(lag: nat, precision: nat) returns (states: seq<DirState>, events: seq<DirEvent>)
    requires lag > Ns(FromMsec(precision))
    ensures |states| == 4 && DirRun(states, events, lag) && Accepted(states[3], precision) && !CacheFresh(states[3])
  {
    var zero := Time(0, 0);
    TimesAreNumbers(zero, FromMsec(precision), precision);
    events := [SetHeader, Finish, Modify({"a"}, zero)];
    var s0 := DirState(Add(zero, FromMsec(precision)), {}, zero, None, {}, None, {}, {});
    var s1 := DirStep(s0, events[0]);
    var s2 := DirStep(s1, events[1]);
    states := [s0, s1, s2, DirStep(s2, events[2])];
    assert "a" in states[3].entries;
  }

  ghost predicate AcceptedAt(states: seq<DirState>, events: seq<DirEvent>, lag: nat, precision: nat, k: nat) {
    DirRun(states, events, lag) && k < |states| && Accepted(states[k], precision)
  }

  /** Every accepted cache is fresh, in every run, if and only if stamps lag by no more than the precision. */
  lemma CacheFreshIff(lag: nat, precision: nat)
    ensures (forall states, events, k :: AcceptedAt(states, events, lag, precision, k) ==> CacheFresh(states[k]))
            <==> lag <= Ns(FromMsec(precision))
  {
    if lag > Ns(FromMsec(precision)) {
      var states, events := LateStampIsMissed(lag, precision);
      assert AcceptedAt(states, events, lag, precision, 3);
    } else {
      forall states, events, k | AcceptedAt(states, events, lag, precision, k) ensures CacheFresh(states[k]) {
        AcceptedCacheIsFresh(states, events, lag, precision, k);
      }
    }
  }

  // ----- the pages of a client -----

  type Page = int
  type Content = seq<Page>

  /** A page past the end reads as zeros. */
  function PageOf(c: Content, i: nat): Page {
    if i < |c| then c[i] else 0
  }

  /** What the server says on open; a stable_ctime of 0 means none. */
  datatype OpenRet = OpenRet(ino: nat, size: nat, ctime: int, stable: int)

  /** hmdfs_update_open_response, with times in nanoseconds */
  function StableCtime(now: int, ctime: int, precision: nat): int {
    if now < ctime then 0
    else if now < ctime + precision then ctime
    else ctime + precision
  }

  datatype Inode = Inode(ino: nat, size: nat, remoteCtime: int, stable: int, timer: bool, pages: map<nat, Page>)

  /** hmdfs_open_final_remote; `expired` is the state of the write-cache timer. */
  function OpenFinal(x: Inode, r: OpenRet, expired: bool, keepCache: bool): (Inode, bool) {
    if x.ino != r.ino then (x, false)
    else if keepCache then (x, true)
    else
      var changed := x.size != r.size || x.remoteCtime != r.ctime;
      var truncate :=
        if changed then true
        else if x.timer then expired
        else x.stable == 0 || x.stable != r.stable;
      (Inode(x.ino, r.size, if changed then r.ctime else x.remoteCtime, r.stable,
             x.timer && !truncate, if truncate then map[] else x.pages), true)
  }

  /** An open is refused if and only if the server has another inode under the path; then nothing changes. */
  lemma StaleInodeRefused(x: Inode, r: OpenRet, expired: bool, keepCache: bool)
    ensures OpenFinal(x, r, expired, keepCache).1 <==> x.ino == r.ino
    ensures x.ino != r.ino || keepCache ==> OpenFinal(x, r, expired, keepCache).0 == x
  {
  }

  /** Whether the client may trust its pages after an open that is not told to keep them */
  predicate Trusted(x: Inode, r: OpenRet, expired: bool) {
    && x.size == r.size && x.remoteCtime == r.ctime
    && if x.timer then !expired else x.stable != 0 && x.stable == r.stable
  }

  /** Pages survive an open if and only if they are trusted, and the write-cache timer ends with them. */
  lemma PagesKeptIff(x: Inode, r: OpenRet, expired: bool)
    requires x.ino == r.ino && x.pages != map[]
    ensures OpenFinal(x, r, expired, false).0.pages == (if Trusted(x, r, expired) then x.pages else map[])
    ensures OpenFinal(x, r, expired, false).0.timer <==> x.timer && Trusted(x, r, expired)
  {
  }

  /** The same on the fields, in the order of the code. */
  class RemoteInode {
    var ino: nat
    var size: nat
    var remoteCtime: int
    var stable: int
    var timer: bool
    var pages: map<nat, Page>

    function View(): Inode
      reads this
    {
      Inode(ino, size, remoteCtime, stable, timer, pages)
    }

    method Open(r: OpenRet, expired: bool, keepCache: bool) returns (ok: bool)
      modifies this
      ensures (View(), ok) == OpenFinal(old(View()), r, expired, keepCache)
    {
      var truncate, mismatch := false, false;
      if ino != r.ino {
        return false;
      }
      if keepCache {
        return true;
      }
      if size != r.size || remoteCtime != r.ctime {
        truncate, mismatch := true, true;
      } else if timer {
        truncate := expired;
      } else if stable == 0 {
        truncate := true;
      } else if stable != r.stable {
        truncate := true;
      }
      if mismatch {
        remoteCtime := r.ctime;
      }
      if truncate {
        timer := false;
        pages := map[];
      }
      stable := r.stable;
      size := r.size;
      ok := true;
    }
  }

  /** The server's file and one client that only reads. */
  datatype FileState = FileState(clock: int, content: Content, ctime: int, inode: Inode, openedAt: int,
                                 changedSince: bool)

  datatype FileEvent =
    | Advance(clock: int)
    | Write(content: Content, stamp: int)
    | OpenFile
    | ReopenFile           // with keep_cache
    | ReadPage(index: nat)
    | DropPage(index: nat)

  predicate FileEnabled(s: FileState, e: FileEvent, precision: nat) {
    match e
    case Advance(clock) => s.clock <= clock
    case Write(_, stamp) => s.clock - precision < stamp && stamp > 0
    case _ => true
  }

  function Response(s: FileState, precision: nat): OpenRet {
    OpenRet(s.inode.ino, |s.content|, s.ctime, StableCtime(s.clock, s.ctime, precision))
  }

  function FileStep(s: FileState, e: FileEvent, precision: nat): FileState {
    match e
    case Advance(clock) => s.(clock := clock)
    case Write(content, stamp) => s.(content := content, ctime := stamp, changedSince := true)
    case OpenFile =>
      s.(inode := OpenFinal(s.inode, Response(s, precision), false, false).0,
         openedAt := s.clock, changedSince := false)
    case ReopenFile => s.(inode := OpenFinal(s.inode, Response(s, precision), false, true).0)
    case ReadPage(index) => s.(inode := s.inode.(pages := s.inode.pages[index := PageOf(s.content, index)]))
    case DropPage(index) => s.(inode := s.inode.(pages := s.inode.pages - {index}))
  }

  predicate PagesFresh(s: FileState) {
    forall i :: i in s.inode.pages ==> s.inode.pages[i] == PageOf(s.content, i)
  }

  /**
   A change after the last open is stamped later than the open minus the precision;
   and if that open found the file stable, unchanged means fresh pages.
   */
  predicate FileInv(s: FileState, precision: nat) {
    && s.ctime > 0 && !s.inode.timer && s.openedAt <= s.clock
    && (s.changedSince ==> s.openedAt - precision < s.ctime)
    && (s.inode.stable != 0 && s.inode.stable == s.inode.remoteCtime + precision ==>
          && s.inode.stable <= s.openedAt
          && (!s.changedSince ==> s.ctime == s.inode.remoteCtime && PagesFresh(s)))
  }

  lemma FileStepInv(s: FileState, e: FileEvent, precision: nat)
    requires FileInv(s, precision) && FileEnabled(s, e, precision)
    ensures FileInv(FileStep(s, e, precision), precision)
  {
  }

  predicate FileStepAt(states: seq<FileState>, events: seq<FileEvent>, precision: nat, k: int) {
    && 0 <= k < |events| && k + 1 < |states|
    && FileEnabled(states[k], events[k], precision) && states[k + 1] == FileStep(states[k], events[k], precision)
  }

  predicate FileInit(s: FileState) {
    && s.ctime > 0 && s.openedAt <= s.clock && !s.changedSince
    && s.inode.remoteCtime == 0 && s.inode.stable == 0 && !s.inode.timer
  }

  ghost predicate FileRun(states: seq<FileState>, events: seq<FileEvent>, precision: nat) {
    && |states| == |events| + 1
    && FileInit(states[0])
    && forall k :: 0 <= k < |events| ==> FileStepAt(states, events, precision, k)
  }

  lemma {:induction false} FileRunInv(states: seq<FileState>, events: seq<FileEvent>, precision: nat, k: nat)
    requires FileRun(states, events, precision) && k < |states|
    ensures FileInv(states[k], precision)
  {
    if k > 0 {
      FileRunInv(states, events, precision, k - 1);
      assert FileStepAt(states, events, precision, k - 1);
      FileStepInv(states[k - 1], events[k - 1], precision);
    }
  }

  /** Step `k` of a run is an open, at time `clock`, of a file last changed at `ctime`. */
  ghost predicate OpenAt(states: seq<FileState>, events: seq<FileEvent>, precision: nat, k: nat,
                         clock: int, ctime: int) {
    && FileRun(states, events, precision) && k < |events| && events[k] == OpenFile
    && states[k].clock == clock && states[k].ctime == ctime
  }

  /** After every open the client has the server's size, change time and stable time. */
  lemma OpenIsCurrent(states: seq<FileState>, events: seq<FileEvent>, precision: nat, k: nat)
    requires FileRun(states, events, precision) && k < |events| && events[k].OpenFile?
    ensures var s, x := states[k], states[k + 1].inode;
            && x.size == |s.content| && x.remoteCtime == s.ctime
            && (x.stable == 0 <==> s.clock < s.ctime)
            && (x.stable != 0 ==> x.stable == if s.clock < s.ctime + precision then s.ctime else s.ctime + precision)
  {
    FileRunInv(states, events, precision, k);
    assert FileStepAt(states, events, precision, k);
  }

  /** An open outside the precision of the last change leaves only pages equal to what the server holds. */
  lemma OpenIsFresh(states: seq<FileState>, events: seq<FileEvent>, precision: nat, k: nat)
    requires FileRun(states, events, precision) && k < |events| && events[k].OpenFile?
    requires !(states[k].ctime <= states[k].clock < states[k].ctime + precision)
    ensures PagesFresh(states[k + 1])
  {
    FileRunInv(states, events, precision, k);
    FileRunInv(states, events, precision, k + 1);
    assert FileStepAt(states, events, precision, k);
  }

  /** Inside it, some run keeps a stale page: open, read, change with the same stamp and size, open again. */
  lemma StaleRun(clock: int, ctime: int, precision: nat) returns (states: seq<FileState>, events: seq<FileEvent>)
    requires 0 < ctime <= clock < ctime + precision
    ensures OpenAt(states, events, precision, 3, clock, ctime) && !PagesFresh(states[4])
  {
    events := [OpenFile, ReadPage(0), Write([1], ctime), OpenFile];
    var s0 := FileState(clock, [0], ctime, Inode(0, 0, 0, 0, false, map[]), clock, false);
    var s1 := FileStep(s0, events[0], precision);
    var s2 := FileStep(s1, events[1], precision);
    var s3 := FileStep(s2, events[2], precision);
    var s4 := FileStep(s3, events[3], precision);
    states := [s0, s1, s2, s3, s4];
    assert 0 in s4.inode.pages && s4.inode.pages[0] == 0 && PageOf(s4.content, 0) == 1;
  }

  /**
   The exact condition: opening at time `clock` a file last changed at `ctime` leaves only current
   pages, in every run of changes, reads and opens, if and only if the clock is before the
   change time or at least the precision after it.
   */
  lemma FreshIff(clock: int, ctime: int, precision: nat)
    requires ctime > 0
    ensures (forall states, events, k ::
               OpenAt(states, events, precision, k, clock, ctime) ==> PagesFresh(states[k + 1]))
            <==> !(ctime <= clock < ctime + precision)
  {
    if ctime <= clock < ctime + precision {
      var states, events := StaleRun(clock, ctime, precision);
      assert OpenAt(states, events, precision, 3, clock, ctime);
      assert !PagesFresh(states[3 + 1]);
    } else {
      forall states, events, k | OpenAt(states, events, precision, k, clock, ctime) ensures PagesFresh(states[k + 1]) {
        OpenIsFresh(states, events, precision, k);
      }
    }
  }
}
