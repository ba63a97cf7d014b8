/**
 Heartbeat membership over a shared directory (internal/discovery/file.go), feeding the
 ring (internal/discovery/discovery.go, cmd/loraplex/main.go). Times are reals on one
 shared clock; writing a heartbeat and scanning the directory are one step each.
 */
module Membership {
  import opened Common
  import opened HashRing

  // ---------------------------------------------------------------------
  // Heartbeat files
  // ---------------------------------------------------------------------

  datatype DirEntry = DirEntry(isDir: bool, modTime: real, data: string)

  type Directory = map<string, DirEntry>

  predicate IsSpace(c: char) {
    c == ' ' || c == '\t' || c == '\n' || c == '\r' || c as int == 11 || c as int == 12 || c as int == 0x85 || c as int == 0xA0
  }

  /** Up to the first line break. */
  function FirstLine(s: string): string {
    if s == "" || s[0] == '\n' then "" else [s[0]] + FirstLine(s[1..])
  }

  function TrimLeft(s: string): string {
    if s != "" && IsSpace(s[0]) then TrimLeft(s[1..]) else s
  }

  function TrimRight(s: string): string {
    if s != "" && IsSpace(s[|s| - 1]) then TrimRight(s[..|s| - 1]) else s
  }

  /** The address a heartbeat file announces. */
  function PeerIn(data: string): Option<Addr> {
    var line := FirstLine(data);
    if line != "" then Some(TrimRight(TrimLeft(line))) else None
  }

  /** An address that survives being written to and read back from a file of its own name. */
  predicate GoodAddr(a: Addr) {
    a != "" && a[0] != '.' && '\n' !in a && !IsSpace(a[0]) && !IsSpace(a[|a| - 1])
  }

  function Heartbeat(a: Addr, at: real, stamp: string): DirEntry {
    DirEntry(false, at, a + "\n" + stamp)
  }

  lemma {:induction false} FirstLineOf(a: string, rest: string)
    requires '\n' !in a
    ensures FirstLine(a + "\n" + rest) == a
  {
    if a == "" {
      assert (a + "\n" + rest)[0] == '\n';
    } else {
      FirstLineOf(a[1..], rest);
      assert (a + "\n" + rest)[1..] == a[1..] + "\n" + rest;
      assert a == [a[0]] + a[1..];
    }
  }

  /** What a node writes is what every node reads. */
  lemma {:induction false} HeartbeatRoundTrip(a: Addr, at: real, stamp: string)
    requires GoodAddr(a)
    ensures PeerIn(Heartbeat(a, at, stamp).data) == Some(a)
  {
    FirstLineOf(a, stamp);
  }

  /** The first line is what stands before the first line break. */
  lemma {:induction false} FirstLineSplits(s: string)
    ensures '\n' !in FirstLine(s) && FirstLine(s) <= s
    ensures |FirstLine(s)| < |s| ==> s[|FirstLine(s)|] == '\n'
  {
    if s != "" && s[0] != '\n' {
      FirstLineSplits(s[1..]);
      assert s == [s[0]] + s[1..];
    }
  }

  ghost predicate AllSpace(s: string) {
    forall c :: c in s ==> IsSpace(c)
  }

  lemma {:induction false} TrimLeftCuts(s: string) returns (cut: string)
    ensures s == cut + TrimLeft(s) && AllSpace(cut) && (TrimLeft(s) != "" ==> !IsSpace(TrimLeft(s)[0]))
  {
    cut := "";
    if s != "" && IsSpace(s[0]) {
      cut := TrimLeftCuts(s[1..]);
      cut := [s[0]] + cut;
    }
  }

  lemma {:induction false} TrimRightCuts(s: string) returns (cut: string)
    ensures s == TrimRight(s) + cut && AllSpace(cut) && (TrimRight(s) != "" ==> !IsSpace(TrimRight(s)[|TrimRight(s)| - 1]))
  {
    cut := "";
    if s != "" && IsSpace(s[|s| - 1]) {
      cut := TrimRightCuts(s[..|s| - 1]);
      cut := cut + [s[|s| - 1]];
    }
  }

  /**
   Any file, not only a heartbeat: it announces somebody if and only if its first line is
   not empty, namely that line without the white space around it, which may leave nothing.
   */
  lemma {:induction false} AnnouncesFirstLine(data: string) returns (before: string, after: string)
    ensures PeerIn(data).None? <==> data == "" || data[0] == '\n'
    ensures PeerIn(data).Some? ==>
              && FirstLine(data) == before + PeerIn(data).value + after && AllSpace(before) && AllSpace(after)
              && (PeerIn(data).value != "" ==> !IsSpace(PeerIn(data).value[0]) && !IsSpace(PeerIn(data).value[|PeerIn(data).value| - 1]))
  {
    var line := FirstLine(data);
    hide TrimLeft, TrimRight, IsSpace, AllSpace;
    before := TrimLeftCuts(line);
    after := TrimRightCuts(TrimLeft(line));
    var a, l := TrimRight(TrimLeft(line)), TrimLeft(line);
    assert a != "" ==> a[0] == l[0];
  }

  /** So a file whose first line is only white space announces the empty address. */
  lemma {:induction false} BlankLineAnnounces(data: string)
    ensures PeerIn(data) == Some("") <==> FirstLine(data) != "" && AllSpace(FirstLine(data))
  {
    var before, after := AnnouncesFirstLine(data);
    if PeerIn(data).Some? && PeerIn(data).value != "" {
      var a := PeerIn(data).value;
      assert FirstLine(data)[|before|] == a[0];
    }
    hide TrimLeft, TrimRight, IsSpace;
  }

  // ---------------------------------------------------------------------
  // One scan
  // ---------------------------------------------------------------------

  /** Subdirectories and dot files are passed over. */
  predicate Skipped(name: string, e: DirEntry) {
    e.isDir || "." <= name
  }

  predicate Stale(e: DirEntry, now: real, stale: real) {
    now - e.modTime > stale
  }

  /** The addresses a scan reports. */
  ghost function Reported(d: Directory, now: real, stale: real): set<Addr> {
    set k | k in d && !Skipped(k, d[k]) && !Stale(d[k], now, stale) && PeerIn(d[k].data).Some? :: PeerIn(d[k].data).value
  }

  /** What it leaves in the directory. */
  ghost function Survivors(d: Directory, now: real, stale: real): Directory {
    map k | k in d && (Skipped(k, d[k]) || !Stale(d[k], now, stale)) :: d[k]
  }

  /** Whatever their age and contents, subdirectories and files whose name starts with a dot are neither deleted nor reported. */
  lemma {:induction false} OthersFilesSpared(d: Directory, now: real, stale: real, k: string)
    requires k in d && (d[k].isDir || (k != "" && k[0] == '.'))
    ensures k in Survivors(d, now, stale) && Survivors(d, now, stale)[k] == d[k]
    ensures Reported(d, now, stale) == Reported(d - {k}, now, stale)
  {
    assert k != "" && k[0] == '.' ==> "." <= k;
    var e := d - {k};
    forall a | a in Reported(d, now, stale) ensures a in Reported(e, now, stale) {
      var j :| j in d && !Skipped(j, d[j]) && !Stale(d[j], now, stale) && PeerIn(d[j].data) == Some(a);
      assert j in e && e[j] == d[j];
    }
    forall a | a in Reported(e, now, stale) ensures a in Reported(d, now, stale) {
      var j :| j in e && !Skipped(j, e[j]) && !Stale(e[j], now, stale) && PeerIn(e[j].data) == Some(a);
      assert j in d && e[j] == d[j];
    }
  }

  /** The entries whose stat, read or delete fails during a scan. */
  datatype ScanFailures = ScanFailures(stat: set<string>, read: set<string>, delete: set<string>)

  /** What a scan leaves when the entries `stuck` cannot be examined or deleted. */
  ghost function Remaining(d: Directory, now: real, stale: real, stuck: set<string>): Directory {
    map k | k in d && (k in stuck || Skipped(k, d[k]) || !Stale(d[k], now, stale)) :: d[k]
  }

  /** The scan deletes this entry. */
  predicate Deletes(name: string, e: DirEntry, now: real, stale: real, bad: ScanFailures) {
    !Skipped(name, e) && name !in bad.stat && Stale(e, now, stale) && name !in bad.delete
  }

  /** The peer that the scan takes from this entry. */
  function PeerOf(name: string, e: DirEntry, now: real, stale: real, bad: ScanFailures): Option<Addr> {
    if !Skipped(name, e) && name !in bad.stat && !Stale(e, now, stale) && name !in bad.read then PeerIn(e.data) else None
  }

  /** What a scan reports of the entries `among`. */
  ghost function ReportedAmong(d: Directory, among: set<string>, now: real, stale: real, bad: ScanFailures): set<Addr> {
    set k | k in among && k in d && PeerOf(k, d[k], now, stale, bad).Some? :: PeerOf(k, d[k], now, stale, bad).value
  }

  /** What a scan leaves when it has examined the entries `among`. */
  ghost function LeftAmong(d: Directory, among: set<string>, now: real, stale: real, bad: ScanFailures): Directory {
    map k | k in d && !(k in among && Deletes(k, d[k], now, stale, bad)) :: d[k]
  }

  lemma {:induction false} OneMoreLeft(d: Directory, among: set<string>, name: string, now: real, stale: real, bad: ScanFailures)
    requires name in d && name !in among
    ensures var left := LeftAmong(d, among, now, stale, bad);
            && name in left && left[name] == d[name]
            && LeftAmong(d, among + {name}, now, stale, bad) == if Deletes(name, d[name], now, stale, bad) then left - {name} else left
  {
    hide Deletes;
  }

  lemma {:induction false} NoneYet(d: Directory, now: real, stale: real, bad: ScanFailures)
    ensures LeftAmong(d, {}, now, stale, bad) == d && ReportedAmong(d, {}, now, stale, bad) == {}
  {
  }

  lemma {:induction false} OneMore(d: Directory, among: set<string>, name: string, now: real, stale: real, bad: ScanFailures)
    requires name in d
    ensures var p := PeerOf(name, d[name], now, stale, bad);
            ReportedAmong(d, among + {name}, now, stale, bad) == ReportedAmong(d, among, now, stale, bad) + if p.Some? then {p.value} else {}
  {
    hide PeerOf;
    var p := PeerOf(name, d[name], now, stale, bad);
    var more, less := ReportedAmong(d, among + {name}, now, stale, bad), ReportedAmong(d, among, now, stale, bad);
    forall a ensures a in more <==> a in less || p == Some(a) {
      if a in more && p != Some(a) {
        var k :| k in among + {name} && k in d && PeerOf(k, d[k], now, stale, bad) == Some(a);
        assert k in among;
      }
      if p == Some(a) {
        assert name in among + {name};
      }
    }
  }

  /** All entries examined, that is the fresh readable ones reported and the stale deletable ones gone. */
  lemma {:induction false} ScanIs(d: Directory, now: real, stale: real, bad: ScanFailures)
    ensures ReportedAmong(d, d.Keys, now, stale, bad) == Reported(d - (bad.stat + bad.read), now, stale)
    ensures LeftAmong(d, d.Keys, now, stale, bad) == Remaining(d, now, stale, bad.stat + bad.delete)
  {
    var e := d - (bad.stat + bad.read);
    assert forall k :: k in e <==> k in d && k !in bad.stat && k !in bad.read;
    forall a ensures a in ReportedAmong(d, d.Keys, now, stale, bad) <==> a in Reported(e, now, stale) {
      if a in ReportedAmong(d, d.Keys, now, stale, bad) {
        var k :| k in d && PeerOf(k, d[k], now, stale, bad) == Some(a);
        assert k in e && e[k] == d[k] && PeerIn(e[k].data) == Some(a);
      }
      if a in Reported(e, now, stale) {
        var k :| k in e && !Skipped(k, e[k]) && !Stale(e[k], now, stale) && PeerIn(e[k].data) == Some(a);
        assert k in d && PeerOf(k, d[k], now, stale, bad) == Some(a);
      }
    }
  }

  /** Failing calls make a scan miss peers and spare stale files; they never make it report or delete more. */
  lemma {:induction false} FailuresOnlyOmit(d: Directory, now: real, stale: real, bad: ScanFailures)
    ensures Reported(d - (bad.stat + bad.read), now, stale) <= Reported(d, now, stale)
    ensures forall k :: k in Survivors(d, now, stale) ==> k in Remaining(d, now, stale, bad.stat + bad.delete)
    ensures Remaining(d, now, stale, {}) == Survivors(d, now, stale)
  {
    var e := d - (bad.stat + bad.read);
    forall a | a in Reported(e, now, stale) ensures a in Reported(d, now, stale) {
      var k :| k in e && !Skipped(k, e[k]) && !Stale(e[k], now, stale) && PeerIn(e[k].data) == Some(a);
      assert k in d && d[k] == e[k];
    }
  }

  ghost predicate ReportsIt(d: Directory, now: real, stale: real, k: string) {
    k in d && !Skipped(k, d[k]) && !Stale(d[k], now, stale) && PeerIn(d[k].data) == Some(k) && k in Reported(d, now, stale)
  }

  class FileDiscovery {
    var dir: Directory
    var peers: seq<Addr>
    const selfAddr: Addr
    const stale: real
    const ring: Ring

    constructor (dir: Directory, selfAddr: Addr, stale: real, ring: Ring)
      ensures this.dir == dir && this.selfAddr == selfAddr && this.stale == stale && this.ring == ring && peers == []
    {
      this.dir, this.selfAddr, this.stale, this.ring := dir, selfAddr, stale, ring;
      peers := [];
    }

    method WriteHeartbeat(now: real, stamp: string, ok: bool)
      modifies this`dir
      ensures dir == if ok then old(dir)[selfAddr := Heartbeat(selfAddr, now, stamp)] else old(dir)
    {
      if ok {
        dir := dir[selfAddr := Heartbeat(selfAddr, now, stamp)];
      }
    }

    /** `SetPeers` with the one callback that main registers. */
    method SetPeers(found: seq<Addr>)
      modifies this`peers, ring
      ensures peers == found && ring.Valid() && ring.peers.Keys == Elements(found)
      ensures Built(ring.vnodes, ring.hs, ring.vnodesPerPeer, Elements(found))
    {
      peers := found;
      ring.Update(found);
    }

    /**
     Deletes stale heartbeats, collects the rest in directory order and rebuilds the ring
     from them; entries that cannot be examined are passed over, and a directory that
     cannot be listed changes nothing.
     */
    method Scan(now: real, names: seq<string>, listable: bool, bad: ScanFailures)
      requires Distinct(names) && Elements(names) == dir.Keys
      modifies this, ring
      ensures !listable ==> dir == old(dir) && peers == old(peers) && ring.vnodes == old(ring.vnodes) && ring.peers == old(ring.peers)
      ensures listable ==> dir == Remaining(old(dir), now, stale, bad.stat + bad.delete)
      ensures listable ==> Elements(peers) == Reported(old(dir) - (bad.stat + bad.read), now, stale)
      ensures listable ==> Built(ring.vnodes, ring.hs, ring.vnodesPerPeer, Reported(old(dir) - (bad.stat + bad.read), now, stale))
      ensures listable ==> ring.Valid() && ring.peers.Keys == Elements(peers)
    {
      hide PeerIn, Skipped, Stale, Deletes, PeerOf, ReportedAmong, LeftAmong, Reported, Remaining, Built;
      if !listable {
        return;
      }
      var found: seq<Addr> := [];
      ghost var before, done: set<string> := dir, {};
      NoneYet(before, now, stale, bad);
      for i := 0 to |names|
        invariant done == Elements(names[..i])
        invariant dir == LeftAmong(before, done, now, stale, bad)
        invariant Elements(found) == ReportedAmong(before, done, now, stale, bad)
      {
        var name := names[i];
        assert name in Elements(names) && name !in names[..i];
        assert names[..i + 1] == names[..i] + [name];
        OneMoreLeft(before, done, name, now, stale, bad);
        OneMore(before, done, name, now, stale, bad);
        var e := dir[name];
        if Deletes(name, e, now, stale, bad) {
          dir := dir - {name};
        }
        var p := PeerOf(name, e, now, stale, bad);
        if p.Some? {
          found := found + [p.value];
        }
        done := done + {name};
      }
      assert names[..|names|] == names;
      ScanIs(before, now, stale, bad);
      SetPeers(found);
    }

    /** A graceful stop: the node's own file goes. */
    method Stop(ok: bool)
      modifies this`dir
      ensures dir == if ok then old(dir) - {selfAddr} else old(dir)
    {
      if ok {
        dir := dir - {selfAddr};
      }
    }

    /**
     One round of the loop: first the heartbeat, then the scan, so that a node whose
     address can be read back is on its own ring whenever its calls succeed.
     */
    method Beat(now: real, stamp: string, writeOk: bool, names: seq<string>, listable: bool, bad: ScanFailures)
      requires Distinct(names) && Elements(names) == dir.Keys + (if writeOk then {selfAddr} else {})
      modifies this, ring
      ensures listable ==> var d := if writeOk then old(dir)[selfAddr := Heartbeat(selfAddr, now, stamp)] else old(dir);
                && dir == Remaining(d, now, stale, bad.stat + bad.delete)
                && Elements(peers) == Reported(d - (bad.stat + bad.read), now, stale)
                && ring.peers.Keys == Elements(peers)
      ensures writeOk && listable && GoodAddr(selfAddr) && stale >= 0.0 && selfAddr !in bad.stat + bad.read ==> selfAddr in ring.peers
    {
      WriteHeartbeat(now, stamp, writeOk);
      ghost var d := dir;
      if writeOk && GoodAddr(selfAddr) {
        HeartbeatRoundTrip(selfAddr, now, stamp);
        assert selfAddr !in bad.stat + bad.read && stale >= 0.0 ==> ReportsIt(d - (bad.stat + bad.read), now, stale, selfAddr);
      }
      hide Remaining, Reported, Built, PeerIn;
      Scan(now, names, listable, bad);
    }
  }

  // ---------------------------------------------------------------------
  // The timed protocol
  // ---------------------------------------------------------------------

  /** Heartbeat gap, stale threshold, and the ring parameters all nodes share. */
  datatype Params = Params(gap: real, stale: real, hs: Hashing, vnodes: int)

  datatype State = State(
    now: real,
    dir: Directory,
    live: set<Addr>,
    lastWrite: map<Addr, real>,
    lastScan: map<Addr, real>,
    rings: map<Addr, seq<VNode>>)

  datatype Step =
    | Advance(dt: real)
    | Join(n: Addr, stamp: string)
    | Write(n: Addr, stamp: string)
    | Scan(n: Addr, ring: seq<VNode>)
    | Leave(n: Addr)
    | Die(n: Addr)

  /** Time may pass only while every live node keeps writing and scanning at most `gap` apart. */
  ghost predicate Enabled(p: Params, s: State, step: Step) {
    match step
    case Advance(dt) => dt > 0.0 && forall n :: n in s.live ==> Punctual(p, s, n, s.now + dt)
    case Join(n, _) => n !in s.live && GoodAddr(n)
    case Write(n, _) => n in s.live
    case Scan(n, ring) => n in s.live && Built(ring, p.hs, p.vnodes, Reported(s.dir, s.now, p.stale))
    case Leave(n) => n in s.live
    case Die(n) => n in s.live
  }

  ghost predicate Punctual(p: Params, s: State, n: Addr, at: real) {
    n in s.lastWrite && n in s.lastScan && at - s.lastWrite[n] <= p.gap && at - s.lastScan[n] <= p.gap
  }

  /** A joining node writes at once and has until its first deadline to scan; a graceful leaver removes its file. */
  ghost function Next(p: Params, s: State, step: Step): State
    requires Enabled(p, s, step)
  {
    match step
    case Advance(dt) => s.(now := s.now + dt)
    case Join(n, stamp) =>
      s.(live := s.live + {n}, dir := s.dir[n := Heartbeat(n, s.now, stamp)],
         lastWrite := s.lastWrite[n := s.now], lastScan := s.lastScan[n := s.now], rings := s.rings[n := []])
    case Write(n, stamp) =>
      s.(dir := s.dir[n := Heartbeat(n, s.now, stamp)], lastWrite := s.lastWrite[n := s.now])
    case Scan(n, ring) =>
      s.(dir := Survivors(s.dir, s.now, p.stale), lastScan := s.lastScan[n := s.now], rings := s.rings[n := ring])
    case Leave(n) => s.(live := s.live - {n}, dir := s.dir - {n})
    case Die(n) => s.(live := s.live - {n})
  }

  ghost predicate IsRun(p: Params, ss: seq<State>, steps: seq<Step>) {
    && |ss| == |steps| + 1
    && forall i :: 0 <= i < |steps| ==> Enabled(p, ss[i], steps[i]) && ss[i + 1] == Next(p, ss[i], steps[i])
  }

  ghost predicate Init(p: Params, s: State) {
    s.dir == map[] && s.live == {} && s.lastWrite == map[] && s.lastScan == map[] && s.rings == map[]
  }

  /** Every file is the last heartbeat of the node it is named after. */
  ghost predicate FilesAreHeartbeats(s: State) {
    forall k :: k in s.dir ==>
      && GoodAddr(k) && k in s.lastWrite && s.lastWrite[k] <= s.now
      && exists stamp :: s.dir[k] == Heartbeat(k, s.lastWrite[k], stamp)
  }

  /** Live nodes are punctual and their files are there. */
  ghost predicate LiveArePresent(p: Params, s: State) {
    forall n :: n in s.live ==> n in s.dir && n in s.rings && Punctual(p, s, n, s.now) && s.lastScan[n] <= s.now
  }

  ghost predicate Inv(p: Params, s: State) {
    p.stale >= p.gap >= 0.0 && FilesAreHeartbeats(s) && LiveArePresent(p, s)
  }

  /** On a directory of heartbeats, a scan reports and keeps exactly the nodes written recently enough. */
  lemma {:induction false} ScanKeepsIff(s: State, stale: real, n: Addr)
    requires FilesAreHeartbeats(s)
    ensures n in Reported(s.dir, s.now, stale) <==> n in s.dir && s.now - s.lastWrite[n] <= stale
    ensures n in Survivors(s.dir, s.now, stale) <==> n in s.dir && s.now - s.lastWrite[n] <= stale
  {
    forall k | k in s.dir ensures PeerIn(s.dir[k].data) == Some(k) && !Skipped(k, s.dir[k]) && s.dir[k].modTime == s.lastWrite[k] {
      var stamp :| s.dir[k] == Heartbeat(k, s.lastWrite[k], stamp);
      HeartbeatRoundTrip(k, s.lastWrite[k], stamp);
    }
  }

  /** Safety of one scan: it reports and keeps every live node, and reports nobody staler than the threshold. */
  lemma {:induction false} ScanIsSafe(p: Params, s: State)
    requires Inv(p, s)
    ensures s.live <= Reported(s.dir, s.now, p.stale)
    ensures s.live <= Survivors(s.dir, s.now, p.stale).Keys
    ensures forall n :: n in Reported(s.dir, s.now, p.stale) ==> n in s.lastWrite && s.now - s.lastWrite[n] <= p.stale
  {
    forall n ensures n in s.live ==> n in Reported(s.dir, s.now, p.stale) && n in Survivors(s.dir, s.now, p.stale) {
      ScanKeepsIff(s, p.stale, n);
    }
    forall n | n in Reported(s.dir, s.now, p.stale) ensures n in s.lastWrite && s.now - s.lastWrite[n] <= p.stale {
      ScanKeepsIff(s, p.stale, n);
    }
  }

  lemma {:induction false} StepFiles(p: Params, s: State, step: Step)
    requires Inv(p, s) && Enabled(p, s, step)
    ensures FilesAreHeartbeats(Next(p, s, step))
  {
    var t := Next(p, s, step);
    forall k | k in t.dir ensures exists stamp :: t.dir[k] == Heartbeat(k, t.lastWrite[k], stamp) {
      if (step.Join? || step.Write?) && step.n == k {
        assert t.dir[k] == Heartbeat(k, t.lastWrite[k], step.stamp);
      } else {
        assert k in s.dir && t.dir[k] == s.dir[k];
        var stamp :| s.dir[k] == Heartbeat(k, s.lastWrite[k], stamp);
        assert t.dir[k] == Heartbeat(k, t.lastWrite[k], stamp);
      }
    }
  }

  lemma {:induction false} StepInv(p: Params, s: State, step: Step)
    requires Inv(p, s) && Enabled(p, s, step)
    ensures Inv(p, Next(p, s, step))
  {
    StepFiles(p, s, step);
    if step.Scan? {
      ScanIsSafe(p, s);
    }
  }

  lemma {:induction false} RunInv(p: Params, ss: seq<State>, steps: seq<Step>, i: nat)
    requires IsRun(p, ss, steps) && Inv(p, ss[0]) && i < |ss|
    ensures Inv(p, ss[i])
  {
    if i > 0 {
      RunInv(p, ss, steps, i - 1);
      StepInv(p, ss[i - 1], steps[i - 1]);
    }
  }

  /**
   Membership safety: with the stale threshold at least the largest gap between writes,
   no scan in any run deletes or omits a live node, and none reports a node whose last
   write is older than the threshold.
   */
  lemma {:induction false} MembershipSafety(p: Params, ss: seq<State>, steps: seq<Step>, i: nat)
    requires p.stale >= p.gap >= 0.0 && IsRun(p, ss, steps) && Init(p, ss[0]) && i < |steps| && steps[i].Scan?
    ensures ss[i].live <= Reported(ss[i].dir, ss[i].now, p.stale)
    ensures ss[i].live <= ss[i + 1].dir.Keys
    ensures forall n :: n in Reported(ss[i].dir, ss[i].now, p.stale) ==>
              n in ss[i].lastWrite && ss[i].now - ss[i].lastWrite[n] <= p.stale
  {
    RunInv(p, ss, steps, i);
    ScanIsSafe(p, ss[i]);
  }

  /** With a threshold below the gap a live node that has been silent longer than the threshold is dropped. */
  lemma {:induction false} ShortThresholdDropsLive(s: State, stale: real, n: Addr)
    requires FilesAreHeartbeats(s) && n in s.live && n in s.dir && s.now - s.lastWrite[n] > stale
    ensures n !in Reported(s.dir, s.now, stale) && n !in Survivors(s.dir, s.now, stale)
  {
    ScanKeepsIff(s, stale, n);
  }

  lemma {:induction false} StepStaysGone(p: Params, s: State, step: Step, n: Addr)
    requires Inv(p, s) && Enabled(p, s, step) && n !in s.live && n !in s.dir && !(step.Join? && step.n == n)
    ensures n !in Next(p, s, step).live && n !in Next(p, s, step).dir
  {
  }

  /**
   A node that leaves gracefully takes its file with it: from then on, until it joins
   again, there is no file of it and no scan of anybody reports it.
   */
  lemma {:induction false} LeaverStaysGone(p: Params, ss: seq<State>, steps: seq<Step>, i: nat, k: nat, n: Addr)
    requires IsRun(p, ss, steps) && Inv(p, ss[0]) && i < k < |ss| && steps[i] == Leave(n)
    requires forall j :: i < j < k ==> !(steps[j].Join? && steps[j].n == n)
    ensures n !in ss[k].dir && n !in ss[k].live && n !in Reported(ss[k].dir, ss[k].now, p.stale)
  {
    RunInv(p, ss, steps, k);
    if k > i + 1 {
      LeaverStaysGone(p, ss, steps, i, k - 1, n);
      RunInv(p, ss, steps, k - 1);
      hide Inv, Enabled, Next, Reported;
      StepStaysGone(p, ss[k - 1], steps[k - 1], n);
    }
    hide IsRun, Enabled, Next;
    InvFiles(p, ss[k]);
    ScanKeepsIff(ss[k], p.stale, n);
  }

  lemma {:induction false} InvFiles(p: Params, s: State)
    requires Inv(p, s)
    ensures FilesAreHeartbeats(s)
  {
  }

  /** A node that just dies is reported as long as its last write is recent enough, and by no scan after that. */
  lemma {:induction false} DeadNodeFades(p: Params, s: State, n: Addr)
    requires Inv(p, s) && n !in s.live && n in s.dir
    ensures n in Reported(s.dir, s.now, p.stale) <==> s.now <= s.lastWrite[n] + p.stale
    ensures n in Survivors(s.dir, s.now, p.stale) <==> s.now <= s.lastWrite[n] + p.stale
  {
    ScanKeepsIff(s, p.stale, n);
  }

  // ---------------------------------------------------------------------
  // Convergence
  // ---------------------------------------------------------------------

  /** Since `t0` membership is `live`; a dead node's file is no younger than `t0`, and late scans saw only the living. */
  ghost predicate Settling(p: Params, s: State, live: set<Addr>, t0: real) {
    && s.live == live
    && (forall k :: k in s.dir && k !in live ==> k in s.lastWrite && s.lastWrite[k] <= t0)
    && (forall n :: n in live && n in s.lastScan && n in s.rings && s.lastScan[n] > t0 + p.stale ==>
         Built(s.rings[n], p.hs, p.vnodes, live))
  }

  lemma {:induction false} LateScanSeesLive(p: Params, s: State, live: set<Addr>, t0: real)
    requires Inv(p, s) && Settling(p, s, live, t0) && s.now > t0 + p.stale
    ensures Reported(s.dir, s.now, p.stale) == live
  {
    ScanIsSafe(p, s);
    forall n | n in Reported(s.dir, s.now, p.stale) ensures n in live {
      ScanKeepsIff(s, p.stale, n);
    }
  }

  lemma {:induction false} SettlingAfterScan(p: Params, s: State, t: State, n: Addr, ring: seq<VNode>, live: set<Addr>, t0: real)
    requires Settling(p, s, live, t0) && t.live == s.live && t.lastWrite == s.lastWrite && t.dir.Keys <= s.dir.Keys
    requires t.lastScan == s.lastScan[n := s.now] && t.rings == s.rings[n := ring]
    requires s.now > t0 + p.stale ==> Built(ring, p.hs, p.vnodes, live)
    ensures Settling(p, t, live, t0)
  {
    hide Built;
  }

  lemma {:induction false} ScanSettling(p: Params, s: State, step: Step, live: set<Addr>, t0: real)
    requires Inv(p, s) && Settling(p, s, live, t0) && step.Scan? && Enabled(p, s, step)
    ensures Settling(p, Next(p, s, step), live, t0)
  {
    if s.now > t0 + p.stale {
      LateScanSeesLive(p, s, live, t0);
    }
    assert Survivors(s.dir, s.now, p.stale).Keys <= s.dir.Keys;
    hide Reported, Survivors, Inv, Built, Settling;
    SettlingAfterScan(p, s, Next(p, s, step), step.n, step.ring, live, t0);
  }

  lemma {:induction false} StepSettling(p: Params, s: State, step: Step, live: set<Addr>, t0: real)
    requires Inv(p, s) && Settling(p, s, live, t0) && Enabled(p, s, step)
    requires !step.Join? && !step.Leave? && !step.Die?
    ensures Settling(p, Next(p, s, step), live, t0)
  {
    if step.Scan? {
      ScanSettling(p, s, step, live, t0);
    } else {
      hide Built;
    }
  }

  lemma {:induction false} SettlingStarts(p: Params, s: State)
    requires Inv(p, s)
    ensures Settling(p, s, s.live, s.now)
  {
    hide Built;
  }

  lemma {:induction false} RunSettling(p: Params, ss: seq<State>, steps: seq<Step>, j: nat, i: nat)
    requires IsRun(p, ss, steps) && Inv(p, ss[0]) && j <= i < |ss|
    requires forall k :: j <= k < i ==> !steps[k].Join? && !steps[k].Leave? && !steps[k].Die?
    ensures Inv(p, ss[i]) && Settling(p, ss[i], ss[j].live, ss[j].now)
  {
    hide Inv, Settling;
    RunInv(p, ss, steps, i);
    if i > j {
      RunSettling(p, ss, steps, j, i - 1);
      StepSettling(p, ss[i - 1], steps[i - 1], ss[j].live, ss[j].now);
    } else {
      SettlingStarts(p, ss[i]);
    }
  }

  /**
   Cluster convergence: if nobody joins or leaves between states `j` and `i` of a run,
   and more than the stale threshold plus one heartbeat gap has passed, then every live
   node's ring is built from exactly the live nodes, and all of them name the same owner
   for every key.
   */
  lemma {:induction false} ClusterConverges(p: Params, ss: seq<State>, steps: seq<Step>, j: nat, i: nat, n: Addr, m: Addr, key: string)
    requires p.stale >= p.gap >= 0.0 && IsRun(p, ss, steps) && Init(p, ss[0]) && j <= i < |ss|
    requires forall k :: j <= k < i ==> !steps[k].Join? && !steps[k].Leave? && !steps[k].Die?
    requires ss[i].now > ss[j].now + p.stale + p.gap && n in ss[j].live && m in ss[j].live
    ensures ss[i].live == ss[j].live
    ensures n in ss[i].rings && Built(ss[i].rings[n], p.hs, p.vnodes, ss[j].live)
    ensures m in ss[i].rings && (NoTies(p.hs, p.vnodes, ss[j].live) ==>
              OwnerOf(ss[i].rings[n], p.hs.key(key)) == OwnerOf(ss[i].rings[m], p.hs.key(key)))
  {
    RunSettling(p, ss, steps, j, i);
    assert Punctual(p, ss[i], n, ss[i].now) && Punctual(p, ss[i], m, ss[i].now);
    if NoTies(p.hs, p.vnodes, ss[j].live) {
      SameMembersSameOwner(ss[i].rings[n], ss[i].rings[m], p.hs, p.vnodes, ss[j].live, p.hs.key(key));
    }
  }
}
