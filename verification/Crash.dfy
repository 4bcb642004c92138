/** Crash-safe segment rewrites: staging, intent marker, rename, unlink, and the recovery that finishes or
    discards whatever a crash left, over a directory of named files. */
module Crash {
  import opened Bytes

  const TMP := "tmp-merge-"
  const LIVE := "seg-"
  const MARK := ".merging"
  const DAT := ".dat"
  const IDX := ".idx"

  type Record = nat
  datatype File = Segment(recs: seq<Record>) | Text(body: string) | Sidecar
  type Files = map<string, File>

  // ---------------------------------------------------------------- names

  predicate HasSuffix(s: string, x: string) { |x| <= |s| && s[|s| - |x|..] == x }

  function TrimSuffix(s: string, x: string): (r: string)
  {
    if HasSuffix(s, x) then s[..|s| - |x|] else s
  }

  function TrimPrefix(s: string, x: string): (r: string)
  {
    if x <= s then s[|x|..] else s
  }

  // A staged output's name to the live name recovery loads.
  function MergedFinalName(staged: string): (r: string) { LIVE + TrimPrefix(staged, TMP) }

  predicate Live(n: string) { LIVE <= n && HasSuffix(n, DAT) }

  predicate Space(c: char) { c == ' ' || c == '\t' || c == '\n' || c == '\r' }

  function TrimSpace(s: string): (r: string)
  {
    if s != [] && Space(s[0]) then TrimSpace(s[1..])
    else if s != [] && Space(s[|s| - 1]) then TrimSpace(s[..|s| - 1])
    else s
  }

  // What is left is without spaces at its ends, and only spaces are taken off.
  lemma {:induction false} TrimSpaceMeans(s: string) returns (a: nat, b: nat)
    ensures a <= b <= |s| && TrimSpace(s) == s[a..b]
    ensures (forall i :: 0 <= i < a || b <= i < |s| ==> Space(s[i]))
    ensures a < b ==> !Space(s[a]) && !Space(s[b - 1])
    decreases |s|
  {
    if s != [] && Space(s[0]) {
      var a', b' := TrimSpaceMeans(s[1..]);
      a, b := a' + 1, b' + 1;
    } else if s != [] && Space(s[|s| - 1]) {
      a, b := TrimSpaceMeans(s[..|s| - 1]);
    } else {
      a, b := 0, |s|;
    }
  }

  // The marker's body: the source names, one a line.
  function Join(names: seq<string>): (r: string)
  {
    if |names| == 0 then [] else if |names| == 1 then names[0] else names[0] + ['\n'] + Join(names[1..])
  }

  function Split(s: string): (r: seq<string>)
    ensures |r| > 0
  {
    if s == [] then [[]]
    else
      var r := Split(s[1..]);
      if s[0] == '\n' then [[]] + r else [[s[0]] + r[0]] + r[1..]
  }

  lemma {:induction false} SplitHead(n: string, rest: string)
    requires '\n' !in n
    ensures Split(n + ['\n'] + rest) == [n] + Split(rest)
    decreases |n|
  {
    if n == [] {
      assert n + ['\n'] + rest == ['\n'] + rest;
    } else {
      SplitHead(n[1..], rest);
      assert (n + ['\n'] + rest)[1..] == n[1..] + ['\n'] + rest;
      assert n == [n[0]] + n[1..];
    }
  }

  lemma {:induction false} SplitOne(n: string)
    requires '\n' !in n
    ensures Split(n) == [n]
    decreases |n|
  {
    if n != [] {
      SplitOne(n[1..]);
      assert n == [n[0]] + n[1..];
    }
  }

  // Reading the marker back gives the sources it was written with.
  lemma {:induction false} SplitJoin(names: seq<string>)
    requires names != [] && forall n :: n in names ==> '\n' !in n
    ensures Split(Join(names)) == names
    decreases |names|
  {
    if |names| == 1 {
      SplitOne(names[0]);
    } else {
      SplitHead(names[0], Join(names[1..]));
      SplitJoin(names[1..]);
      assert names == [names[0]] + names[1..];
    }
  }

  // ---------------------------------------------------------------- jobs

  // One rewrite: the numbered tail of the output's name, its sources in append order, its records.
  datatype Job = Job(tail: string, srcs: seq<string>, out: seq<Record>)

  function Staged(j: Job): (r: string) { TMP + j.tail }
  function Final(j: Job): (r: string) { LIVE + j.tail }
  function Marker(j: Job): (r: string) { Staged(j) + MARK }
  function Body(j: Job): (r: File) { Text(Join(j.srcs)) }

  ghost function Footprint(j: Job): set<string>
  {
    {Staged(j), Final(j), Marker(j)} + (set n | n in j.srcs) + (set n | n in j.srcs :: n + IDX)
  }

  function Has(fs: Files, n: string, r: Record): (c: nat)
  {
    if n in fs && fs[n].Segment? then multiset(fs[n].recs)[r] else 0
  }

  // How often the named files hold a record.
  ghost function Held(fs: Files, names: seq<string>, r: Record): nat
  {
    if names == [] then 0 else Held(fs, names[..|names| - 1], r) + Has(fs, names[|names| - 1], r)
  }

  ghost predicate JobOK(fs0: Files, j: Job)
  {
    && HasSuffix(j.tail, DAT) && j.srcs != [] && Final(j) !in fs0
    && (forall i, k :: 0 <= i < k < |j.srcs| ==> j.srcs[i] != j.srcs[k])
    && (forall n :: n in j.srcs ==> Live(n) && '\n' !in n && n in fs0 && fs0[n].Segment? && n != Final(j))
    && forall r :: Held(fs0, j.srcs, r) == multiset(j.out)[r]
  }

  ghost predicate JobsOK(fs0: Files, jobs: seq<Job>)
  {
    && (forall n :: n in fs0 ==> !HasSuffix(n, MARK) && !(TMP <= n))
    && (forall j :: 0 <= j < |jobs| ==> JobOK(fs0, jobs[j]))
    && (forall i, j :: 0 <= i < j < |jobs| ==> Footprint(jobs[i]) !! Footprint(jobs[j]))
  }

  function Get(fs: Files, n: string): (r: Option<File>) { if n in fs then Some(fs[n]) else None }

  ghost predicate Kept(fs: Files, fs0: Files, n: string) { Get(fs, n) == Get(fs0, n) }
  ghost predicate KeptOrGone(fs: Files, fs0: Files, n: string) { n in fs ==> Kept(fs, fs0, n) }

  ghost predicate SourcesKept(fs: Files, fs0: Files, j: Job)
  {
    forall n :: n in j.srcs ==> Kept(fs, fs0, n) && Kept(fs, fs0, n + IDX)
  }

  ghost predicate SourcesLeaving(fs: Files, fs0: Files, j: Job)
  {
    forall n :: n in j.srcs ==> KeptOrGone(fs, fs0, n) && KeptOrGone(fs, fs0, n + IDX)
  }

  // Where a crash can leave one rewrite: not durable, recorded but not renamed, renamed with some sources
  // left, complete, or a marker whose output was withdrawn.
  ghost predicate Undone(fs: Files, fs0: Files, j: Job)
  {
    Marker(j) !in fs && Final(j) !in fs && SourcesKept(fs, fs0, j)
  }

  ghost predicate Recorded(fs: Files, fs0: Files, j: Job)
  {
    Get(fs, Marker(j)) == Some(Body(j)) && Get(fs, Staged(j)) == Some(Segment(j.out)) && Final(j) !in fs &&
      SourcesKept(fs, fs0, j)
  }

  ghost predicate Renamed(fs: Files, fs0: Files, j: Job)
  {
    Get(fs, Marker(j)) == Some(Body(j)) && Get(fs, Final(j)) == Some(Segment(j.out)) && Staged(j) !in fs &&
      SourcesLeaving(fs, fs0, j)
  }

  ghost predicate Complete(fs: Files, fs0: Files, j: Job)
  {
    && Marker(j) !in fs && Get(fs, Final(j)) == Some(Segment(j.out)) && Staged(j) !in fs
    && SourcesLeaving(fs, fs0, j) && forall n :: n in j.srcs ==> n !in fs
  }

  ghost predicate Withdrawn(fs: Files, fs0: Files, j: Job)
  {
    Get(fs, Marker(j)) == Some(Body(j)) && Staged(j) !in fs && Final(j) !in fs && SourcesKept(fs, fs0, j)
  }

  ghost predicate Phase(fs: Files, fs0: Files, j: Job)
  {
    Undone(fs, fs0, j) || Recorded(fs, fs0, j) || Renamed(fs, fs0, j) || Complete(fs, fs0, j) || Withdrawn(fs, fs0, j)
  }

  // Every rewrite is in some phase and nothing else changed.
  ghost predicate World(fs: Files, fs0: Files, jobs: seq<Job>)
  {
    && (forall j :: 0 <= j < |jobs| ==> Phase(fs, fs0, jobs[j]))
    && (forall n :: Outside(jobs, n) ==> Kept(fs, fs0, n))
  }

  ghost predicate Outside(jobs: seq<Job>, n: string) { forall j :: 0 <= j < |jobs| ==> n !in Footprint(jobs[j]) }

  // A phase is read off the rewrite's own names.
  lemma PhaseFrame(fs: Files, fs': Files, fs0: Files, j: Job)
    requires forall n :: n in Footprint(j) ==> Get(fs', n) == Get(fs, n)
    ensures Undone(fs', fs0, j) <==> Undone(fs, fs0, j)
    ensures Recorded(fs', fs0, j) <==> Recorded(fs, fs0, j)
    ensures Renamed(fs', fs0, j) <==> Renamed(fs, fs0, j)
    ensures Complete(fs', fs0, j) <==> Complete(fs, fs0, j)
    ensures Withdrawn(fs', fs0, j) <==> Withdrawn(fs, fs0, j)
  {
    hide Footprint, Staged, Final, Marker;
    JobInFootprint(j);
    SourcesFrame(fs, fs', fs0, j);
    assert Get(fs', Staged(j)) == Get(fs, Staged(j)) && Get(fs', Final(j)) == Get(fs, Final(j)) &&
      Get(fs', Marker(j)) == Get(fs, Marker(j));
  }

  lemma SourcesFrame(fs: Files, fs': Files, fs0: Files, j: Job)
    requires forall n :: n in Footprint(j) ==> Get(fs', n) == Get(fs, n)
    ensures SourcesKept(fs', fs0, j) <==> SourcesKept(fs, fs0, j)
    ensures SourcesLeaving(fs', fs0, j) <==> SourcesLeaving(fs, fs0, j)
    ensures forall n :: n in j.srcs ==> (n in fs' <==> n in fs)
  {
    hide Footprint;
    JobInFootprint(j);
    forall n | n in j.srcs ensures Get(fs', n) == Get(fs, n) && Get(fs', n + IDX) == Get(fs, n + IDX) {}
    forall n | n in j.srcs
      ensures Kept(fs', fs0, n) == Kept(fs, fs0, n) && Kept(fs', fs0, n + IDX) == Kept(fs, fs0, n + IDX)
    {
    }
  }

  lemma JobInFootprint(j: Job)
    ensures Staged(j) in Footprint(j) && Final(j) in Footprint(j) && Marker(j) in Footprint(j)
    ensures forall n :: n in j.srcs ==> n in Footprint(j) && n + IDX in Footprint(j)
  {
  }

  lemma JobAt(fs0: Files, jobs: seq<Job>, j: nat)
    requires JobsOK(fs0, jobs) && j < |jobs|
    ensures JobOK(fs0, jobs[j])
  {
  }

  // A change inside one rewrite's footprint leaves every other rewrite where it was.
  lemma WorldStep(fs: Files, fs': Files, fs0: Files, jobs: seq<Job>, j: nat)
    requires JobsOK(fs0, jobs) && World(fs, fs0, jobs) && j < |jobs|
    requires Phase(fs', fs0, jobs[j]) && forall n :: n !in Footprint(jobs[j]) ==> Get(fs', n) == Get(fs, n)
    ensures World(fs', fs0, jobs)
  {
    hide Undone, Recorded, Renamed, Complete, Withdrawn, Footprint;
    forall i | 0 <= i < |jobs| ensures Phase(fs', fs0, jobs[i]) {
      if i != j { PhaseFrame(fs, fs', fs0, jobs[i]); }
    }
    forall n | Outside(jobs, n) ensures Kept(fs', fs0, n) {
      assert Kept(fs, fs0, n);
    }
  }

  // ---------------------------------------------------------------- the directory

  // A directory that takes `left` more file operations before the machine goes down; later ones are lost.
  class Disk {
    var files: Files
    var left: nat
    var down: bool

    constructor (fs: Files, budget: nat)
      ensures files == fs && left == budget && !down
    {
      files, left, down := fs, budget, false;
    }

    method Write(n: string, f: File)
      modifies this
      ensures old(down) ==> down
      ensures files == if down then old(files) else old(files)[n := f]
    {
      if down || left == 0 { down := true; } else { files, left := files[n := f], left - 1; }
    }

    method Remove(n: string)
      modifies this
      ensures old(down) ==> down
      ensures files == if down then old(files) else old(files) - {n}
    {
      if down || left == 0 { down := true; } else { files, left := files - {n}, left - 1; }
    }

    method Rename(a: string, b: string)
      modifies this
      ensures old(down) ==> down
      ensures files == if down || a !in old(files) then old(files) else (old(files) - {a})[b := old(files)[a]]
    {
      if down || left == 0 {
        down := true;
      } else if a in files {
        files, left := (files - {a})[b := files[a]], left - 1;
      }
    }

    // Restart with a new budget.
    method Restart(budget: nat)
      modifies this
      ensures files == old(files) && !down && left == budget
    {
      left, down := budget, false;
    }
  }

  // No two roles share a name.
  lemma NamesApartIn(fs0: Files, j: Job)
    requires JobOK(fs0, j)
    ensures Staged(j) != Final(j) && Staged(j) != Marker(j) && Final(j) != Marker(j)
    ensures forall n :: n in j.srcs ==> n != Staged(j) && n != Marker(j) && n != Final(j)
    ensures forall n :: n in j.srcs ==> n + IDX != Staged(j) && n + IDX != Marker(j) && n + IDX != Final(j)
    ensures forall n, m :: n in j.srcs && m in j.srcs ==> n + IDX != m && (n + IDX == m + IDX ==> n == m)
  {
    assert Staged(j)[0] == 't' && Final(j)[0] == 's' && Marker(j)[0] == 't' && |Marker(j)| > |Staged(j)|;
    assert Ends(Final(j), 't') by { assert Ends(j.tail, 't'); }
    forall n | n in j.srcs
      ensures n[0] == 's' && Ends(n, 't') && Ends(n + IDX, 'x') && (n + IDX)[0] == 's' && (n + IDX)[..|n|] == n
    {
    }
  }

  predicate Ends(n: string, c: char) { n != [] && n[|n| - 1] == c }

  // ---------------------------------------------------------------- the steps a rewrite or a recovery takes

  lemma NamesApart(fs0: Files, jobs: seq<Job>, ji: nat)
    requires JobsOK(fs0, jobs) && ji < |jobs|
    ensures var j := jobs[ji];
      && Staged(j) != Final(j) && Staged(j) != Marker(j) && Final(j) != Marker(j)
      && (forall n :: n in j.srcs ==> n != Staged(j) && n != Marker(j) && n != Final(j))
      && (forall n :: n in j.srcs ==> n + IDX != Staged(j) && n + IDX != Marker(j) && n + IDX != Final(j))
      && (forall n, m :: n in j.srcs && m in j.srcs ==> n + IDX != m && (n + IDX == m + IDX ==> n == m))
  {
    hide JobOK;
    NamesApartIn(fs0, jobs[ji]);
  }

  // Writing the staged file changes nothing a reader can see.
  lemma Restage(fs: Files, fs': Files, fs0: Files, jobs: seq<Job>, ji: nat, f: File)
    requires JobsOK(fs0, jobs) && ji < |jobs| && World(fs, fs0, jobs) && Undone(fs, fs0, jobs[ji])
    requires fs' == fs[Staged(jobs[ji]) := f]
    ensures World(fs', fs0, jobs) && Undone(fs', fs0, jobs[ji])
  {
    hide World, JobsOK, Footprint, Marker, Staged, Final;
    NamesApart(fs0, jobs, ji);
    JobInFootprint(jobs[ji]);
    WorldStep(fs, fs', fs0, jobs, ji);
  }

  // Nor does dropping it while there is no marker.
  lemma Unstage(fs: Files, fs': Files, fs0: Files, jobs: seq<Job>, ji: nat)
    requires JobsOK(fs0, jobs) && ji < |jobs| && World(fs, fs0, jobs) && Undone(fs, fs0, jobs[ji])
    requires fs' == fs - {Staged(jobs[ji])}
    ensures World(fs', fs0, jobs) && Undone(fs', fs0, jobs[ji])
  {
    hide World, JobsOK, Footprint, Marker, Staged, Final;
    NamesApart(fs0, jobs, ji);
    JobInFootprint(jobs[ji]);
    WorldStep(fs, fs', fs0, jobs, ji);
  }

  // The marker makes a complete staged file durable.
  lemma Intend(fs: Files, fs': Files, fs0: Files, jobs: seq<Job>, ji: nat)
    requires JobsOK(fs0, jobs) && ji < |jobs| && World(fs, fs0, jobs) && Undone(fs, fs0, jobs[ji])
    requires Get(fs, Staged(jobs[ji])) == Some(Segment(jobs[ji].out))
    requires fs' == fs[Marker(jobs[ji]) := Body(jobs[ji])]
    ensures World(fs', fs0, jobs) && Recorded(fs', fs0, jobs[ji])
  {
    hide World, JobsOK, Footprint, Marker, Staged, Final;
    NamesApart(fs0, jobs, ji);
    JobInFootprint(jobs[ji]);
    WorldStep(fs, fs', fs0, jobs, ji);
  }

  // Withdrawing the output under its marker.
  lemma Withdraw(fs: Files, fs': Files, fs0: Files, jobs: seq<Job>, ji: nat)
    requires JobsOK(fs0, jobs) && ji < |jobs| && World(fs, fs0, jobs) && Recorded(fs, fs0, jobs[ji])
    requires fs' == fs - {Staged(jobs[ji])}
    ensures World(fs', fs0, jobs) && Withdrawn(fs', fs0, jobs[ji])
  {
    hide World, JobsOK, Footprint, Marker, Staged, Final;
    NamesApart(fs0, jobs, ji);
    JobInFootprint(jobs[ji]);
    WorldStep(fs, fs', fs0, jobs, ji);
  }

  // Dropping the marker before the rename.
  lemma Unrecord(fs: Files, fs': Files, fs0: Files, jobs: seq<Job>, ji: nat)
    requires JobsOK(fs0, jobs) && ji < |jobs| && World(fs, fs0, jobs) && Recorded(fs, fs0, jobs[ji])
    requires fs' == fs - {Marker(jobs[ji])}
    ensures World(fs', fs0, jobs) && Undone(fs', fs0, jobs[ji])
  {
    hide World, JobsOK, Footprint, Marker, Staged, Final;
    NamesApart(fs0, jobs, ji);
    JobInFootprint(jobs[ji]);
    WorldStep(fs, fs', fs0, jobs, ji);
  }

  // The rename brings the output in beside its sources.
  lemma Place(fs: Files, fs': Files, fs0: Files, jobs: seq<Job>, ji: nat)
    requires JobsOK(fs0, jobs) && ji < |jobs| && World(fs, fs0, jobs) && Recorded(fs, fs0, jobs[ji])
    requires Staged(jobs[ji]) in fs
    requires fs' == (fs - {Staged(jobs[ji])})[Final(jobs[ji]) := fs[Staged(jobs[ji])]]
    ensures World(fs', fs0, jobs) && Renamed(fs', fs0, jobs[ji])
  {
    hide World, JobsOK, Footprint, Marker, Staged, Final;
    NamesApart(fs0, jobs, ji);
    JobInFootprint(jobs[ji]);
    WorldStep(fs, fs', fs0, jobs, ji);
  }

  // Sources go one by one while the marker stands.
  lemma Unlink(fs: Files, fs': Files, fs0: Files, jobs: seq<Job>, ji: nat, n: string)
    requires JobsOK(fs0, jobs) && ji < |jobs| && World(fs, fs0, jobs) && Renamed(fs, fs0, jobs[ji])
      && (n in jobs[ji].srcs || exists m :: m in jobs[ji].srcs && n == m + IDX)
    requires fs' == fs - {n}
    ensures World(fs', fs0, jobs) && Renamed(fs', fs0, jobs[ji])
  {
    hide World, JobsOK, Footprint, Marker, Staged, Final;
    NamesApart(fs0, jobs, ji);
    JobInFootprint(jobs[ji]);
    WorldStep(fs, fs', fs0, jobs, ji);
  }

  // With every source gone the marker may go.
  lemma Finish(fs: Files, fs': Files, fs0: Files, jobs: seq<Job>, ji: nat)
    requires JobsOK(fs0, jobs) && ji < |jobs| && World(fs, fs0, jobs) && Renamed(fs, fs0, jobs[ji])
      && forall n :: n in jobs[ji].srcs ==> n !in fs
    requires fs' == fs - {Marker(jobs[ji])}
    ensures World(fs', fs0, jobs) && Complete(fs', fs0, jobs[ji])
  {
    hide World, JobsOK, Footprint, Marker, Staged, Final;
    NamesApart(fs0, jobs, ji);
    JobInFootprint(jobs[ji]);
    WorldStep(fs, fs', fs0, jobs, ji);
  }

  // A marker whose output was withdrawn is dropped.
  lemma DropWithdrawn(fs: Files, fs': Files, fs0: Files, jobs: seq<Job>, ji: nat)
    requires JobsOK(fs0, jobs) && ji < |jobs| && World(fs, fs0, jobs) && Withdrawn(fs, fs0, jobs[ji])
    requires fs' == fs - {Marker(jobs[ji])}
    ensures World(fs', fs0, jobs) && Undone(fs', fs0, jobs[ji])
  {
    hide World, JobsOK, Footprint, Marker, Staged, Final;
    NamesApart(fs0, jobs, ji);
    JobInFootprint(jobs[ji]);
    WorldStep(fs, fs', fs0, jobs, ji);
  }

  datatype MarkerWrite = Written | Failed(leftBehind: bool)

  // What the operating system and the rest of the process answer along the way.
  datatype Env = Env(flushOk: bool, marker: MarkerWrite, renameOk: bool, slotOk: bool, pinned: set<string>)

  ghost function Unpinned(job: Job, env: Env): set<string> { set n | n in job.srcs && n !in env.pinned }

  method Abort(d: Disk, job: Job, ghost fs0: Files, ghost jobs: seq<Job>, ghost ji: nat)
    requires JobsOK(fs0, jobs) && ji < |jobs| && job == jobs[ji]
    requires World(d.files, fs0, jobs) && (!d.down ==> Undone(d.files, fs0, job))
    modifies d
    ensures World(d.files, fs0, jobs) && (old(d.down) ==> d.down)
  {
    hide World, JobsOK, Undone, Staged;
    ghost var was := d.files;
    d.Remove(Staged(job));
    if !d.down { Unstage(was, d.files, fs0, jobs, ji); }
  }

  // Unlink every source no scan holds.
  method Reap(d: Disk, job: Job, env: Env, ghost fs0: Files, ghost jobs: seq<Job>, ghost ji: nat)
    requires JobsOK(fs0, jobs) && ji < |jobs| && job == jobs[ji]
    requires World(d.files, fs0, jobs) && (!d.down ==> Renamed(d.files, fs0, job))
    modifies d
    ensures World(d.files, fs0, jobs) && (old(d.down) ==> d.down)
    ensures !d.down ==> Renamed(d.files, fs0, job) && d.files == old(d.files) - Unpinned(job, env)
  {
    hide World, JobsOK, Renamed;
    var i := 0;
    ghost var gone: set<string> := {};
    while i < |job.srcs|
      invariant 0 <= i <= |job.srcs| && World(d.files, fs0, jobs) && (old(d.down) ==> d.down)
      invariant !d.down ==> Renamed(d.files, fs0, job) && d.files == old(d.files) - gone
      invariant gone == set n | n in job.srcs[..i] && n !in env.pinned
    {
      if job.srcs[i] !in env.pinned {
        ghost var was := d.files;
        d.Remove(job.srcs[i]);
        if !d.down { Unlink(was, d.files, fs0, jobs, ji, job.srcs[i]); }
        gone := gone + {job.srcs[i]};
      }
      assert job.srcs[..i + 1] == job.srcs[..i] + [job.srcs[i]];
      i := i + 1;
    }
    assert job.srcs[..i] == job.srcs;
  }

  method Stage(d: Disk, job: Job, ghost fs0: Files, ghost jobs: seq<Job>, ghost ji: nat)
    requires JobsOK(fs0, jobs) && ji < |jobs| && job == jobs[ji] && World(d.files, fs0, jobs)
    requires Undone(d.files, fs0, job)
    modifies d
    ensures World(d.files, fs0, jobs) && (old(d.down) ==> d.down)
    ensures !d.down ==> Undone(d.files, fs0, job) && d.files == old(d.files)[Staged(job) := Segment(job.out)]
  {
    hide World, JobsOK, Undone, Staged;
    ghost var start := d.files;
    d.Write(Staged(job), Segment([]));
    if !d.down { Restage(start, d.files, fs0, jobs, ji, Segment([])); }
    ghost var created := d.files;
    d.Write(Staged(job), Segment(job.out));
    if !d.down { Restage(created, d.files, fs0, jobs, ji, Segment(job.out)); }
  }

  ghost function Swapped(fs: Files, job: Job, env: Env): Files
    requires Staged(job) in fs
  {
    ((fs - {Staged(job)})[Final(job) := fs[Staged(job)]] - Unpinned(job, env)) - {Marker(job)}
  }

  // From a recorded intent on: rename, publish, unlink, drop the marker.
  method Swap(d: Disk, job: Job, env: Env, ghost fs0: Files, ghost jobs: seq<Job>, ghost ji: nat) returns (done: bool)
    requires JobsOK(fs0, jobs) && ji < |jobs| && job == jobs[ji]
    requires World(d.files, fs0, jobs) && (!d.down ==> Recorded(d.files, fs0, job) && Staged(job) in d.files)
    modifies d
    ensures (forall n :: n in job.srcs ==> n !in env.pinned) ==> World(d.files, fs0, jobs)
    ensures (old(d.down) ==> d.down) && (done <==> env.renameOk && env.slotOk)
    ensures done && !d.down ==> Staged(job) in old(d.files)
    ensures done && !d.down ==> d.files == Swapped(old(d.files), job, env)
  {
    hide World, JobsOK, Undone, Recorded, Renamed, Complete, Marker, Staged, Final;
    ghost var recorded := d.files;
    done := false;
    if !env.renameOk {
      d.Remove(Marker(job));
      if !d.down { Unrecord(recorded, d.files, fs0, jobs, ji); }
      Abort(d, job, fs0, jobs, ji);
      return;
    }
    d.Rename(Staged(job), Final(job));
    if !d.down { Place(recorded, d.files, fs0, jobs, ji); }
    if !env.slotOk { return; }
    ghost var placed := d.files;
    Reap(d, job, env, fs0, jobs, ji);
    ghost var reaped := d.files;
    d.Remove(Marker(job));
    if !d.down && forall n :: n in job.srcs ==> n !in env.pinned { Finish(reaped, d.files, fs0, jobs, ji); }
    done := true;
  }

  // Stage, record the intent, rename, publish, unlink, drop the marker; the sources held by a scan are not
  // unlinked here.
  method CommitSegmentRewrite(d: Disk, job: Job, env: Env, ghost fs0: Files, ghost jobs: seq<Job>, ghost ji: nat)
    returns (done: bool)
    requires JobsOK(fs0, jobs) && ji < |jobs| && job == jobs[ji]
    requires World(d.files, fs0, jobs) && Undone(d.files, fs0, job) && Staged(job) !in d.files
    modifies d
    ensures (forall n :: n in job.srcs ==> n !in env.pinned) ==> World(d.files, fs0, jobs)
    ensures done <==> env.flushOk && env.marker == Written && env.renameOk && env.slotOk
    ensures done && !d.down ==> d.files == (old(d.files) - Unpinned(job, env))[Final(job) := Segment(job.out)]
  {
    hide World, JobsOK, Undone, Recorded, Withdrawn, Marker, Staged, Final, Unpinned;
    ghost var start := d.files;
    Stage(d, job, fs0, jobs, ji);
    done := false;
    if !env.flushOk || env.marker == Failed(false) {
      Abort(d, job, fs0, jobs, ji);
      return;
    }
    ghost var staged := d.files;
    d.Write(Marker(job), Body(job));
    if !d.down { Intend(staged, d.files, fs0, jobs, ji); }
    ghost var recorded := d.files;
    if env.marker.Failed? {
      d.Remove(Staged(job));
      if !d.down { Withdraw(recorded, d.files, fs0, jobs, ji); }
      return;
    }
    done := Swap(d, job, env, fs0, jobs, ji);
    if done && !d.down { CommittedFiles(start, fs0, jobs, ji, env); }
  }

  lemma CommittedFiles(start: Files, fs0: Files, jobs: seq<Job>, ji: nat, env: Env)
    requires JobsOK(fs0, jobs) && ji < |jobs| && Undone(start, fs0, jobs[ji]) && Staged(jobs[ji]) !in start
    ensures var job := jobs[ji]; var recorded := start[Staged(job) := Segment(job.out)][Marker(job) := Body(job)];
      Swapped(recorded, job, env) == (start - Unpinned(job, env))[Final(job) := Segment(job.out)]
  {
    hide JobsOK, Marker, Staged, Final;
    NamesApart(fs0, jobs, ji);
  }

  // ---------------------------------------------------------------- recovery

  method ReadDir(fs: Files) returns (ents: seq<string>)
    ensures forall n :: n in ents <==> n in fs
  {
    var rest := fs.Keys;
    ents := [];
    while rest != {}
      invariant forall n :: n in fs <==> n in ents || n in rest
      decreases rest
    {
      var n :| n in rest;
      ents, rest := ents + [n], rest - {n};
    }
  }

  // Only rewrites leave marker or staged names behind.
  lemma WhoseName(fs: Files, fs0: Files, jobs: seq<Job>, e: string)
    requires JobsOK(fs0, jobs) && World(fs, fs0, jobs) && e in fs
    ensures HasSuffix(e, MARK) ==> exists k :: 0 <= k < |jobs| && e == Marker(jobs[k])
    ensures TMP <= e ==> exists k :: 0 <= k < |jobs| && (e == Marker(jobs[k]) || e == Staged(jobs[k]))
  {
    if HasSuffix(e, MARK) || TMP <= e {
      assert Outside(jobs, e) ==> Kept(fs, fs0, e);
      var k :| 0 <= k < |jobs| && e in Footprint(jobs[k]);
      RoleOf(fs0, jobs[k], e);
    }
  }

  lemma RoleOf(fs0: Files, j: Job, e: string)
    requires JobOK(fs0, j) && e in Footprint(j)
    ensures HasSuffix(e, MARK) ==> e == Marker(j)
    ensures TMP <= e ==> e == Marker(j) || e == Staged(j)
  {
    assert Ends(Final(j), 't') && Ends(Staged(j), 't') by { assert Ends(j.tail, 't'); }
    assert HasSuffix(e, MARK) ==> Ends(e, 'g');
    assert TMP <= e ==> e[0] == 't';
    if e in j.srcs {
      assert Ends(e, 't') && e[0] == 's';
    } else if exists n :: n in j.srcs && e == n + IDX {
      var n :| n in j.srcs && e == n + IDX;
      assert Ends(e, 'x') && n[0] == 's' && e[0] == 's';
    } else {
      assert Final(j)[0] == 's';
    }
  }

  lemma NamesBack(j: Job)
    ensures TrimSuffix(Marker(j), MARK) == Staged(j) && MergedFinalName(Staged(j)) == Final(j)
  {
    assert HasSuffix(Marker(j), MARK) && TMP <= Staged(j);
    assert TrimPrefix(Staged(j), TMP) == j.tail;
  }

  lemma LiveTrim(n: string)
    requires Live(n)
    ensures TrimSpace(n) == n && n != []
  {
    assert n[0] == 's' && n[|n| - 1] == 't';
  }

  lemma MarkerPhase(fs: Files, fs0: Files, jobs: seq<Job>, ji: nat)
    requires World(fs, fs0, jobs) && ji < |jobs| && Marker(jobs[ji]) in fs
    ensures Recorded(fs, fs0, jobs[ji]) || Renamed(fs, fs0, jobs[ji]) || Withdrawn(fs, fs0, jobs[ji])
    ensures fs[Marker(jobs[ji])] == Body(jobs[ji])
    ensures Final(jobs[ji]) in fs <==> Renamed(fs, fs0, jobs[ji])
    ensures Final(jobs[ji]) !in fs ==> (Staged(jobs[ji]) in fs <==> Recorded(fs, fs0, jobs[ji]))
  {
    hide Marker, Staged, Final, Footprint, SourcesKept, SourcesLeaving;
    assert Phase(fs, fs0, jobs[ji]);
  }

  // Remove the named sources and their sidecars.
  method RemoveSources(d: Disk, names: seq<string>, final: string, ghost fs0: Files, ghost jobs: seq<Job>,
                       ghost ji: nat)
    requires JobsOK(fs0, jobs) && ji < |jobs| && names == jobs[ji].srcs && final == Final(jobs[ji])
    requires World(d.files, fs0, jobs) && (!d.down ==> Renamed(d.files, fs0, jobs[ji]))
    modifies d
    ensures World(d.files, fs0, jobs) && (old(d.down) ==> d.down)
    ensures !d.down ==> Renamed(d.files, fs0, jobs[ji]) && forall n :: n in names ==> n !in d.files
    ensures forall n :: n !in Footprint(jobs[ji]) ==> Get(d.files, n) == Get(old(d.files), n)
    ensures forall n :: n in d.files ==> n in old(d.files)
  {
    hide World, JobsOK, Renamed, Footprint, Final, TrimSpace;
    JobInFootprint(jobs[ji]);
    var i := 0;
    while i < |names|
      invariant 0 <= i <= |names| && World(d.files, fs0, jobs) && (old(d.down) ==> d.down)
      invariant !d.down ==> Renamed(d.files, fs0, jobs[ji]) && forall n :: n in names[..i] ==> n !in d.files
      invariant forall n :: n !in Footprint(jobs[ji]) ==> Get(d.files, n) == Get(old(d.files), n)
      invariant forall n :: n in d.files ==> n in old(d.files)
    {
      SourceName(fs0, jobs, ji, i);
      var name := TrimSpace(names[i]);
      if name != "" && name != final {
        ghost var was := d.files;
        d.Remove(name);
        if !d.down { Unlink(was, d.files, fs0, jobs, ji, name); }
        ghost var mid := d.files;
        d.Remove(name + IDX);
        if !d.down { Unlink(mid, d.files, fs0, jobs, ji, name + IDX); }
      }
      assert names[..i + 1] == names[..i] + [names[i]];
      i := i + 1;
    }
    assert names[..i] == names;
  }

  lemma SourceName(fs0: Files, jobs: seq<Job>, ji: nat, i: nat)
    requires JobsOK(fs0, jobs) && ji < |jobs| && i < |jobs[ji].srcs|
    ensures var n := jobs[ji].srcs[i]; TrimSpace(n) == n && n != "" && n != Final(jobs[ji])
  {
    assert JobOK(fs0, jobs[ji]);
    LiveTrim(jobs[ji].srcs[i]);
  }

  lemma MarkerReads(fs0: Files, jobs: seq<Job>, ji: nat)
    requires JobsOK(fs0, jobs) && ji < |jobs|
    ensures Split(Body(jobs[ji]).body) == jobs[ji].srcs
  {
    assert JobOK(fs0, jobs[ji]);
    SplitJoin(jobs[ji].srcs);
  }

  // A rewrite recovery has to carry through: its output is in place, or staged behind a durable marker.
  ghost predicate Due(fs: Files, fs0: Files, j: Job, stuck: set<string>)
  {
    Renamed(fs, fs0, j) || (Recorded(fs, fs0, j) && Staged(j) !in stuck)
  }

  lemma NotDue(fs: Files, fs0: Files, j: Job, stuck: set<string>)
    requires Final(j) !in fs && (Staged(j) !in fs || Staged(j) in stuck)
    ensures !Due(fs, fs0, j, stuck)
  {
    hide Staged, Final, Marker, SourcesKept, SourcesLeaving;
  }

  // Finish, or drop, the rewrite one marker names; `stuck` are the outputs whose rename fails.
  method FinishOne(d: Disk, marker: string, stuck: set<string>, ghost fs0: Files, ghost jobs: seq<Job>, ghost ji: nat)
    requires JobsOK(fs0, jobs) && ji < |jobs| && marker == Marker(jobs[ji]) && marker in d.files
    requires World(d.files, fs0, jobs)
    modifies d
    ensures World(d.files, fs0, jobs) && (old(d.down) ==> d.down)
    ensures !d.down && marker in d.files ==> Recorded(d.files, fs0, jobs[ji]) && Staged(jobs[ji]) in stuck
    ensures !d.down && Due(old(d.files), fs0, jobs[ji], stuck) ==> Complete(d.files, fs0, jobs[ji])
    ensures forall n :: n !in Footprint(jobs[ji]) ==> Get(d.files, n) == Get(old(d.files), n)
    ensures forall n :: n in d.files ==> n in old(d.files) || n == Final(jobs[ji])
  {
    hide World, JobsOK, Undone, Recorded, Renamed, Complete, Withdrawn, Due, Marker, Staged, Final, Footprint, Split,
      Join, TrimSuffix, MergedFinalName;
    JobInFootprint(jobs[ji]);
    MarkerPhase(d.files, fs0, jobs, ji);
    NamesBack(jobs[ji]);
    MarkerReads(fs0, jobs, ji);
    var body := d.files[marker].body;
    var staged := TrimSuffix(marker, MARK);
    var final := MergedFinalName(staged);
    ghost var was := d.files;
    if final !in d.files {
      if staged !in d.files {
        d.Remove(marker);
        if !d.down { DropWithdrawn(was, d.files, fs0, jobs, ji); }
        NotDue(was, fs0, jobs[ji], stuck);
        return;
      }
      if staged in stuck {
        NotDue(was, fs0, jobs[ji], stuck);
        return;
      }
      d.Rename(staged, final);
      if !d.down { Place(was, d.files, fs0, jobs, ji); }
    }
    RemoveSources(d, Split(body), final, fs0, jobs, ji);
    ghost var bare := d.files;
    d.Remove(marker);
    if !d.down { Finish(bare, d.files, fs0, jobs, ji); }
  }

  // Nothing for recovery to do.
  ghost predicate Quiet(fs: Files) { forall n :: n in fs ==> !HasSuffix(n, MARK) && !(TMP <= n) }

  // Every rewrite either did not happen or happened whole.
  ghost predicate Settled(fs: Files, fs0: Files, jobs: seq<Job>)
  {
    && World(fs, fs0, jobs)
    && forall k :: 0 <= k < |jobs| ==> Undone(fs, fs0, jobs[k]) || Complete(fs, fs0, jobs[k])
  }

  // Markers still standing belong to names not yet visited, or to renames that failed.
  ghost predicate MarkersIn(fs: Files, fs0: Files, jobs: seq<Job>, ahead: seq<string>, stuck: set<string>)
  {
    forall k :: 0 <= k < |jobs| && Marker(jobs[k]) in fs ==>
      Marker(jobs[k]) in ahead || (Recorded(fs, fs0, jobs[k]) && Staged(jobs[k]) in stuck)
  }

  lemma MarkersStep(fs: Files, fs': Files, fs0: Files, jobs: seq<Job>, ahead: seq<string>, stuck: set<string>, ji: nat)
    requires JobsOK(fs0, jobs) && ahead != [] && MarkersIn(fs, fs0, jobs, ahead, stuck) && ji < |jobs|
    requires ahead[0] == Marker(jobs[ji])
    requires forall n :: n !in Footprint(jobs[ji]) ==> Get(fs', n) == Get(fs, n)
    requires Marker(jobs[ji]) in fs' ==> Recorded(fs', fs0, jobs[ji]) && Staged(jobs[ji]) in stuck
    ensures MarkersIn(fs', fs0, jobs, ahead[1..], stuck)
  {
    hide Footprint, Recorded, Marker, Staged;
    forall k | 0 <= k < |jobs| && Marker(jobs[k]) in fs'
      ensures Marker(jobs[k]) in ahead[1..] || (Recorded(fs', fs0, jobs[k]) && Staged(jobs[k]) in stuck)
    {
      if k != ji {
        assert Footprint(jobs[k]) !! Footprint(jobs[ji]);
        JobInFootprint(jobs[k]);
        JobInFootprint(jobs[ji]);
        PhaseFrame(fs, fs', fs0, jobs[k]);
        assert ahead == [ahead[0]] + ahead[1..];
      }
    }
  }

  // Complete every merge a crash interrupted, then drop staged files no marker stands for.
  method FinishPendingMerges(d: Disk, stuck: set<string>, ghost fs0: Files, ghost jobs: seq<Job>)
    requires JobsOK(fs0, jobs) && World(d.files, fs0, jobs)
    modifies d
    ensures World(d.files, fs0, jobs)
    ensures !d.down ==> Settled(d.files, fs0, jobs)
    ensures !d.down ==> forall k: nat {:trigger jobs[k]} ::
      k < |jobs| && Due(old(d.files), fs0, jobs[k], stuck) ==> Complete(d.files, fs0, jobs[k])
    ensures !d.down && stuck == {} ==> Quiet(d.files)
    ensures old(Quiet(d.files)) ==> d.files == old(d.files)
  {
    hide World, JobsOK, Undone, Recorded, Renamed, Complete, Withdrawn, Due, CarriedOn, Marker, Staged, Final,
      Footprint, MarkersIn, HasSuffix;
    ghost var start := d.files;
    var ents := ReadDir(d.files);
    var i := 0;
    assert MarkersIn(d.files, fs0, jobs, ents, stuck) by { MarkersListed(d.files, fs0, jobs, ents, stuck); }
    CarriedStart(start, fs0, jobs, ents, stuck);
    while i < |ents|
      invariant 0 <= i <= |ents| && World(d.files, fs0, jobs)
      invariant !d.down ==>
        MarkersIn(d.files, fs0, jobs, ents[i..], stuck) && CarriedOn(start, d.files, fs0, jobs, ents[i..], stuck)
      invariant old(Quiet(d.files)) ==> d.files == old(d.files)
      invariant forall n :: n in d.files && TMP <= n ==> n in ents
    {
      assert ents[i..][1..] == ents[i + 1..];
      ghost var was := d.files;
      if HasSuffix(ents[i], MARK) && ents[i] in d.files {
        WhoseName(d.files, fs0, jobs, ents[i]);
        ghost var k :| 0 <= k < |jobs| && ents[i] == Marker(jobs[k]);
        FinishOne(d, ents[i], stuck, fs0, jobs, k);
        FinalVisible(jobs[k]);
        if !d.down {
          MarkersStep(was, d.files, fs0, jobs, ents[i..], stuck, k);
          CarriedStep(start, was, d.files, fs0, jobs, ents[i..], stuck, k);
        }
      } else if !d.down {
        MarkersSkip(d.files, fs0, jobs, ents[i..], stuck);
        CarriedSkip(start, d.files, fs0, jobs, ents[i..], stuck);
      }
      i := i + 1;
    }
    assert ents[i..] == [];
    if !d.down { CarriedEnd(start, d.files, fs0, jobs, stuck); }
    DropStaged(d, ents, stuck, fs0, jobs);
  }

  // Rewrites due at the start are complete, or still due and their marker still to be visited.
  ghost predicate CarriedOn(start: Files, fs: Files, fs0: Files, jobs: seq<Job>, ahead: seq<string>, stuck: set<string>)
  {
    forall k: nat {:trigger jobs[k]} :: k < |jobs| && Due(start, fs0, jobs[k], stuck) ==>
      Complete(fs, fs0, jobs[k]) || (Due(fs, fs0, jobs[k], stuck) && Marker(jobs[k]) in ahead)
  }

  lemma DueMarked(fs: Files, fs0: Files, j: Job, stuck: set<string>)
    requires Due(fs, fs0, j, stuck)
    ensures Marker(j) in fs
  {
    hide SourcesKept, SourcesLeaving, Marker, Staged, Final;
  }

  lemma CarriedStart(start: Files, fs0: Files, jobs: seq<Job>, ents: seq<string>, stuck: set<string>)
    requires forall n :: n in ents <==> n in start
    ensures CarriedOn(start, start, fs0, jobs, ents, stuck)
  {
    hide Due, Marker, Complete;
    forall k: nat | k < |jobs| && Due(start, fs0, jobs[k], stuck)
      ensures Marker(jobs[k]) in ents
    {
      DueMarked(start, fs0, jobs[k], stuck);
    }
  }

  lemma CarriedStep(start: Files, was: Files, fs: Files, fs0: Files, jobs: seq<Job>, ahead: seq<string>,
                    stuck: set<string>, ji: nat)
    requires JobsOK(fs0, jobs) && ahead != [] && CarriedOn(start, was, fs0, jobs, ahead, stuck) && ji < |jobs|
    requires ahead[0] == Marker(jobs[ji])
    requires forall n :: n !in Footprint(jobs[ji]) ==> Get(fs, n) == Get(was, n)
    requires Due(was, fs0, jobs[ji], stuck) ==> Complete(fs, fs0, jobs[ji])
    requires Marker(jobs[ji]) in was
    ensures CarriedOn(start, fs, fs0, jobs, ahead[1..], stuck)
  {
    hide Footprint, Recorded, Renamed, Complete, Marker, Staged;
    assert ahead == [ahead[0]] + ahead[1..];
    forall k: nat | k < |jobs| && Due(start, fs0, jobs[k], stuck)
      ensures Complete(fs, fs0, jobs[k]) || (Due(fs, fs0, jobs[k], stuck) && Marker(jobs[k]) in ahead[1..])
    {
      if k != ji {
        assert Footprint(jobs[k]) !! Footprint(jobs[ji]);
        JobInFootprint(jobs[k]);
        JobInFootprint(jobs[ji]);
        PhaseFrame(was, fs, fs0, jobs[k]);
      } else {
        CompleteUnmarked(was, fs0, jobs[ji]);
      }
    }
  }

  lemma CompleteUnmarked(fs: Files, fs0: Files, j: Job)
    ensures Complete(fs, fs0, j) ==> Marker(j) !in fs && Staged(j) !in fs
  {
    hide Marker, Staged, Final, SourcesLeaving;
  }

  lemma CarriedSkip(start: Files, fs: Files, fs0: Files, jobs: seq<Job>, ahead: seq<string>, stuck: set<string>)
    requires ahead != [] && CarriedOn(start, fs, fs0, jobs, ahead, stuck)
    requires (!HasSuffix(ahead[0], MARK) || ahead[0] !in fs)
    ensures CarriedOn(start, fs, fs0, jobs, ahead[1..], stuck)
  {
    hide Due, Complete, Staged;
    assert ahead == [ahead[0]] + ahead[1..];
    forall k: nat | k < |jobs| && Due(fs, fs0, jobs[k], stuck) ensures Marker(jobs[k]) != ahead[0] {
      DueMarked(fs, fs0, jobs[k], stuck);
      assert HasSuffix(Marker(jobs[k]), MARK);
    }
  }

  lemma CarriedEnd(start: Files, fs: Files, fs0: Files, jobs: seq<Job>, stuck: set<string>)
    requires CarriedOn(start, fs, fs0, jobs, [], stuck)
    ensures forall k: nat {:trigger jobs[k]} ::
      k < |jobs| && Due(start, fs0, jobs[k], stuck) ==> Complete(fs, fs0, jobs[k])
  {
    hide Due, Complete, Marker;
  }

  // Dropping a temporary name touches no completed rewrite.
  lemma CompleteStays(fs: Files, fs': Files, fs0: Files, jobs: seq<Job>, e: string)
    requires JobsOK(fs0, jobs) && World(fs, fs0, jobs) && TMP <= e && fs' == fs - {e}
    ensures forall k: nat {:trigger jobs[k]} :: k < |jobs| && Complete(fs, fs0, jobs[k]) ==> Complete(fs', fs0, jobs[k])
  {
    hide Footprint, Complete, Recorded, Renamed, Undone, Withdrawn, Marker, Staged, World, Final;
    if e in fs {
      WhoseName(fs, fs0, jobs, e);
      var ji :| 0 <= ji < |jobs| && (e == Marker(jobs[ji]) || e == Staged(jobs[ji]));
      forall k: nat | k < |jobs| && Complete(fs, fs0, jobs[k]) ensures Complete(fs', fs0, jobs[k]) {
        CompleteUnmarked(fs, fs0, jobs[k]);
        assert k != ji ==> Footprint(jobs[k]) !! Footprint(jobs[ji]);
        JobInFootprint(jobs[ji]);
        PhaseFrame(fs, fs', fs0, jobs[k]);
      }
    } else {
      assert fs' == fs;
    }
  }

  lemma FinalVisible(j: Job)
    ensures !(TMP <= Final(j)) && TMP <= Staged(j) && TMP <= Marker(j) && HasSuffix(Marker(j), MARK) &&
      Marker(j) == Staged(j) + MARK
  {
    assert Final(j)[0] == 's';
  }

  lemma MarkersListed(fs: Files, fs0: Files, jobs: seq<Job>, ents: seq<string>, stuck: set<string>)
    requires forall n :: n in ents <==> n in fs
    ensures MarkersIn(fs, fs0, jobs, ents, stuck)
  {
    hide Marker, Recorded, Staged;
  }

  lemma MarkersSkip(fs: Files, fs0: Files, jobs: seq<Job>, ahead: seq<string>, stuck: set<string>)
    requires ahead != [] && MarkersIn(fs, fs0, jobs, ahead, stuck) && (!HasSuffix(ahead[0], MARK) || ahead[0] !in fs)
    ensures MarkersIn(fs, fs0, jobs, ahead[1..], stuck)
  {
    hide Recorded;
    assert ahead == [ahead[0]] + ahead[1..];
    forall k | 0 <= k < |jobs| && Marker(jobs[k]) in fs ensures Marker(jobs[k]) != ahead[0] {
      assert HasSuffix(Marker(jobs[k]), MARK);
    }
  }

  ghost predicate StagedIn(fs: Files, fs0: Files, jobs: seq<Job>, ahead: seq<string>, stuck: set<string>)
  {
    forall k :: 0 <= k < |jobs| ==>
      && (Marker(jobs[k]) in fs ==> Marker(jobs[k]) in ahead && Recorded(fs, fs0, jobs[k]) && Staged(jobs[k]) in stuck)
      && (Staged(jobs[k]) in fs ==> Staged(jobs[k]) in ahead || Staged(jobs[k]) in stuck)
  }

  lemma StagedListed(fs: Files, fs0: Files, jobs: seq<Job>, ents: seq<string>, stuck: set<string>)
    requires MarkersIn(fs, fs0, jobs, [], stuck) && forall n :: n in fs && TMP <= n ==> n in ents
    ensures StagedIn(fs, fs0, jobs, ents, stuck)
  {
    hide Recorded, Marker, Staged;
    forall k | 0 <= k < |jobs| ensures TMP <= Marker(jobs[k]) && TMP <= Staged(jobs[k]) { FinalVisible(jobs[k]); }
  }

  // Dropping a staged name, or a marker whose rename failed, leaves its rewrite undone.
  lemma StagedDrop(fs: Files, fs': Files, fs0: Files, jobs: seq<Job>, ahead: seq<string>, stuck: set<string>, ji: nat)
    requires JobsOK(fs0, jobs) && World(fs, fs0, jobs) && ahead != [] && StagedIn(fs, fs0, jobs, ahead, stuck)
    requires ji < |jobs| && ahead[0] in fs
    requires (ahead[0] == Marker(jobs[ji]) || (ahead[0] == Staged(jobs[ji]) && Marker(jobs[ji]) !in fs))
    requires fs' == fs - {ahead[0]}
    ensures World(fs', fs0, jobs) && StagedIn(fs', fs0, jobs, ahead[1..], stuck)
  {
    hide Footprint, Recorded, Marker, Staged, World, Undone, Complete, Final;
    NamesApart(fs0, jobs, ji);
    JobInFootprint(jobs[ji]);
    if ahead[0] == Marker(jobs[ji]) {
      Unrecord(fs, fs', fs0, jobs, ji);
    } else {
      NoMarker(fs, fs0, jobs, ji);
      Unstage(fs, fs', fs0, jobs, ji);
    }
    assert ahead == [ahead[0]] + ahead[1..];
    forall k | 0 <= k < |jobs| && k != ji
      ensures Marker(jobs[k]) in fs' ==>
        Marker(jobs[k]) in ahead[1..] && Recorded(fs', fs0, jobs[k]) && Staged(jobs[k]) in stuck
      ensures Staged(jobs[k]) in fs' ==> Staged(jobs[k]) in ahead[1..] || Staged(jobs[k]) in stuck
    {
      assert Footprint(jobs[k]) !! Footprint(jobs[ji]);
      JobInFootprint(jobs[k]);
      PhaseFrame(fs, fs', fs0, jobs[k]);
    }
  }

  lemma NoMarker(fs: Files, fs0: Files, jobs: seq<Job>, ji: nat)
    requires World(fs, fs0, jobs) && ji < |jobs| && Marker(jobs[ji]) !in fs
    ensures Undone(fs, fs0, jobs[ji]) || Complete(fs, fs0, jobs[ji])
    ensures Staged(jobs[ji]) in fs ==> Undone(fs, fs0, jobs[ji])
  {
    hide Marker, Staged, Final, SourcesKept, SourcesLeaving;
    assert Phase(fs, fs0, jobs[ji]);
  }

  lemma StagedKeep(fs: Files, fs0: Files, jobs: seq<Job>, ahead: seq<string>, stuck: set<string>)
    requires JobsOK(fs0, jobs) && World(fs, fs0, jobs) && ahead != [] && StagedIn(fs, fs0, jobs, ahead, stuck)
    requires ahead[0] !in fs || !(TMP <= ahead[0]) || ahead[0] + MARK in fs
    ensures StagedIn(fs, fs0, jobs, ahead[1..], stuck)
  {
    hide Recorded, Marker, Staged, World, Final;
    assert ahead == [ahead[0]] + ahead[1..];
    forall k | 0 <= k < |jobs|
      ensures Marker(jobs[k]) in fs ==> Marker(jobs[k]) != ahead[0]
      ensures Staged(jobs[k]) in fs && Staged(jobs[k]) == ahead[0] ==> Staged(jobs[k]) in stuck
    {
      FinalVisible(jobs[k]);
      if Marker(jobs[k]) + MARK in fs {
        DoubleMark(fs, fs0, jobs, k);
      }
    }
  }

  lemma MarkersDiffer(j: Job, k: Job)
    requires HasSuffix(j.tail, DAT)
    ensures Marker(j) != Marker(k) + MARK
  {
    var m, l := Marker(j), |MARK| + 1;
    assert m[|m| - l] == j.tail[|j.tail| - 1] == 't';
    var e := Marker(k) + MARK;
    assert e[|e| - l] == 'g';
  }

  lemma DoubleMark(fs: Files, fs0: Files, jobs: seq<Job>, k: nat)
    requires JobsOK(fs0, jobs) && World(fs, fs0, jobs) && k < |jobs|
    ensures Marker(jobs[k]) + MARK !in fs
  {
    hide World, Marker;
    var e := Marker(jobs[k]) + MARK;
    assert HasSuffix(e, MARK);
    forall q | 0 <= q < |jobs| ensures e != Marker(jobs[q]) {
      assert JobOK(fs0, jobs[q]);
      MarkersDiffer(jobs[q], jobs[k]);
    }
    if e in fs { WhoseName(fs, fs0, jobs, e); }
  }

  method DropStaged(d: Disk, ents: seq<string>, stuck: set<string>, ghost fs0: Files, ghost jobs: seq<Job>)
    requires JobsOK(fs0, jobs) && World(d.files, fs0, jobs) && (!d.down ==> MarkersIn(d.files, fs0, jobs, [], stuck))
    requires forall n :: n in d.files && TMP <= n ==> n in ents
    modifies d
    ensures World(d.files, fs0, jobs) && (old(d.down) ==> d.down)
    ensures !d.down ==> Settled(d.files, fs0, jobs)
    ensures forall k: nat {:trigger jobs[k]} ::
      k < |jobs| && Complete(old(d.files), fs0, jobs[k]) ==> Complete(d.files, fs0, jobs[k])
    ensures !d.down && stuck == {} ==> Quiet(d.files)
    ensures old(Quiet(d.files)) ==> d.files == old(d.files)
  {
    hide World, JobsOK, Undone, Recorded, Complete, Marker, Staged, Final, Footprint, MarkersIn, StagedIn, HasSuffix;
    if !d.down { StagedListed(d.files, fs0, jobs, ents, stuck); }
    var i := 0;
    while i < |ents|
      invariant 0 <= i <= |ents| && World(d.files, fs0, jobs) && (old(d.down) ==> d.down)
      invariant !d.down ==> StagedIn(d.files, fs0, jobs, ents[i..], stuck)
      invariant forall k: nat {:trigger jobs[k]} ::
        k < |jobs| && Complete(old(d.files), fs0, jobs[k]) ==> Complete(d.files, fs0, jobs[k])
      invariant old(Quiet(d.files)) ==> d.files == old(d.files)
    {
      var e := ents[i];
      assert ents[i..][1..] == ents[i + 1..];
      ghost var was, up := d.files, !d.down;
      if TMP <= e && e + MARK !in d.files {
        d.Remove(e);
        if !d.down {
          CompleteStays(was, d.files, fs0, jobs, e);
          if e in was {
            StagedGone(was, d.files, fs0, jobs, ents[i..], stuck);
          } else {
            StagedKeep(was, fs0, jobs, ents[i..], stuck);
          }
        }
        assert e !in was ==> d.files == was;
      } else if !d.down {
        StagedKeep(was, fs0, jobs, ents[i..], stuck);
      }
      i := i + 1;
    }
    if !d.down { NoneLeft(d.files, fs0, jobs, stuck); }
  }

  lemma StagedGone(fs: Files, fs': Files, fs0: Files, jobs: seq<Job>, ahead: seq<string>, stuck: set<string>)
    requires JobsOK(fs0, jobs) && World(fs, fs0, jobs) && ahead != [] && StagedIn(fs, fs0, jobs, ahead, stuck)
    requires ahead[0] in fs && TMP <= ahead[0] && ahead[0] + MARK !in fs && fs' == fs - {ahead[0]}
    ensures World(fs', fs0, jobs) && StagedIn(fs', fs0, jobs, ahead[1..], stuck)
  {
    hide World, JobsOK, StagedIn, Marker, Staged;
    WhoseName(fs, fs0, jobs, ahead[0]);
    var k :| 0 <= k < |jobs| && (ahead[0] == Marker(jobs[k]) || ahead[0] == Staged(jobs[k]));
    FinalVisible(jobs[k]);
    StagedDrop(fs, fs', fs0, jobs, ahead, stuck, k);
  }

  lemma NoneLeft(fs: Files, fs0: Files, jobs: seq<Job>, stuck: set<string>)
    requires JobsOK(fs0, jobs) && World(fs, fs0, jobs) && StagedIn(fs, fs0, jobs, [], stuck)
    ensures Settled(fs, fs0, jobs) && (stuck == {} ==> Quiet(fs))
  {
    hide Marker, Staged, World, Undone, Complete, HasSuffix, Recorded;
    forall k | 0 <= k < |jobs|
      ensures Undone(fs, fs0, jobs[k]) || Complete(fs, fs0, jobs[k])
    {
      NoMarker(fs, fs0, jobs, k);
    }
    forall n | n in fs && stuck == {} ensures !HasSuffix(n, MARK) && !(TMP <= n) { WhoseName(fs, fs0, jobs, n); }
  }

  // ---------------------------------------------------------------- what a reader then finds

  // The segments recovery loads: the live names.
  ghost function Loaded(fs: Files): map<string, seq<Record>>
  {
    map n | n in fs && Live(n) && fs[n].Segment? :: fs[n].recs
  }

  // How often the loaded segments hold a record.
  ghost function Copies(m: map<string, seq<Record>>, r: Record): nat
  {
    if m == map[] then 0 else
      var n :| n in m;
      multiset(m[n])[r] + Copies(m - {n}, r)
  }

  // None exactly where no loaded segment holds it.
  lemma {:induction false} CopiesNone(m: map<string, seq<Record>>, r: Record)
    ensures Copies(m, r) == 0 <==> forall n :: n in m ==> r !in m[n]
    decreases |m|
  {
    if n :| n in m {
      Shrinks(m, n);
      CopiesWithout(m, n, r);
      CopiesNone(m - {n}, r);
      assert m.Keys == (m - {n}).Keys + {n};
    }
  }

  lemma {:induction false} CopiesWithout(m: map<string, seq<Record>>, n: string, r: Record)
    requires n in m
    ensures Copies(m, r) == multiset(m[n])[r] + Copies(m - {n}, r)
    decreases |m|
  {
    var k :| k in m && Copies(m, r) == multiset(m[k])[r] + Copies(m - {k}, r);
    if k != n {
      assert |m - {k}| < |m| by { Shrinks(m, k); }
      assert |m - {n}| < |m| by { Shrinks(m, n); }
      CopiesWithout(m - {k}, n, r);
      CopiesWithout(m - {n}, k, r);
      assert m - {k} - {n} == m - {n} - {k};
    }
  }

  lemma Shrinks(m: map<string, seq<Record>>, k: string)
    requires k in m
    ensures |m - {k}| < |m|
  {
    assert (m - {k}).Keys == m.Keys - {k};
  }

  ghost function NameSet(names: seq<string>): set<string> { set n | n in names }

  // Taking files out takes their records out.
  lemma {:induction false} CopiesMinus(fs0: Files, m: map<string, seq<Record>>, names: seq<string>, r: Record)
    requires forall i, k :: 0 <= i < k < |names| ==> names[i] != names[k]
    requires forall n :: n in names ==> n in m && n in fs0 && fs0[n] == Segment(m[n])
    ensures Copies(m, r) == Held(fs0, names, r) + Copies(m - NameSet(names), r)
    decreases |names|
  {
    hide Copies;
    if names == [] {
      assert m - NameSet(names) == m;
    } else {
      var l := |names| - 1;
      var n := names[l];
      assert names == names[..l] + [n];
      assert n !in names[..l];
      CopiesMinus(fs0, m, names[..l], r);
      var less := m - NameSet(names[..l]);
      CopiesWithout(less, n, r);
      assert less - {n} == m - NameSet(names);
    }
  }

  // Swapping sources for an output holding their records moves no record.
  lemma CopiesSwap(fs0: Files, m: map<string, seq<Record>>, j: Job, r: Record)
    requires forall i, k :: 0 <= i < k < |j.srcs| ==> j.srcs[i] != j.srcs[k]
    requires forall n :: n in j.srcs ==> n in m && n in fs0 && fs0[n] == Segment(m[n])
    requires Final(j) !in m && multiset(j.out)[r] == Held(fs0, j.srcs, r)
    ensures Copies((m - NameSet(j.srcs))[Final(j) := j.out], r) == Copies(m, r)
  {
    hide Held, Final, Copies;
    CopiesMinus(fs0, m, j.srcs, r);
    var m' := (m - NameSet(j.srcs))[Final(j) := j.out];
    CopiesWithout(m', Final(j), r);
    assert m' - {Final(j)} == m - NameSet(j.srcs);
  }

  ghost predicate Touched(jobs: seq<Job>, k: nat, n: string)
  {
    exists i :: 0 <= i < k && i < |jobs| && n in Footprint(jobs[i])
  }

  // The first k rewrites as recovery left them, the others as they began.
  ghost function Mid(fs: Files, fs0: Files, jobs: seq<Job>, k: nat): map<string, seq<Record>>
  {
    var a, b := Loaded(fs), Loaded(fs0);
    map n | n in a.Keys + b.Keys && (if Touched(jobs, k, n) then n in a else n in b) ::
      if Touched(jobs, k, n) then a[n] else b[n]
  }

  ghost function At(m: map<string, seq<Record>>, n: string): Option<seq<Record>> { if n in m then Some(m[n]) else None }

  lemma SameMap(m: map<string, seq<Record>>, m': map<string, seq<Record>>)
    requires forall n :: At(m, n) == At(m', n)
    ensures m == m'
  {
    forall n ensures n in m <==> n in m' { assert At(m, n) == At(m', n); }
    forall n | n in m ensures m[n] == m'[n] { assert At(m, n) == At(m', n); }
  }

  lemma MidAt(fs: Files, fs0: Files, jobs: seq<Job>, k: nat, n: string)
    ensures At(Mid(fs, fs0, jobs, k), n) == if Touched(jobs, k, n) then At(Loaded(fs), n) else At(Loaded(fs0), n)
  {
    hide Loaded, Touched;
  }

  lemma TouchedStep(fs0: Files, jobs: seq<Job>, k: nat, n: string)
    requires JobsOK(fs0, jobs) && k < |jobs|
    ensures Touched(jobs, k + 1, n) <==> Touched(jobs, k, n) || n in Footprint(jobs[k])
    ensures n in Footprint(jobs[k]) ==> !Touched(jobs, k, n)
  {
    hide Footprint, JobOK;
  }

  lemma MidStep(fs: Files, fs0: Files, jobs: seq<Job>, k: nat, r: Record)
    requires JobsOK(fs0, jobs) && Settled(fs, fs0, jobs) && k < |jobs|
    ensures Copies(Mid(fs, fs0, jobs, k + 1), r) == Copies(Mid(fs, fs0, jobs, k), r)
  {
    hide World, Footprint, Copies, Held, Touched, Mid, Loaded, Undone, Complete, JobsOK, Final, Live;
    var m, m', j := Mid(fs, fs0, jobs, k), Mid(fs, fs0, jobs, k + 1), jobs[k];
    JobAt(fs0, jobs, k);
    FootprintLive(fs, fs0, j);
    var swapped := (m - NameSet(j.srcs))[Final(j) := j.out];
    forall n ensures At(m', n) == if Complete(fs, fs0, j) then At(swapped, n) else At(m, n) {
      MidAt(fs, fs0, jobs, k, n);
      MidAt(fs, fs0, jobs, k + 1, n);
      TouchedStep(fs0, jobs, k, n);
      if n in Footprint(j) && n !in j.srcs && n != Final(j) { NotLoaded(fs, n); NotLoaded(fs0, n); }
    }
    if Complete(fs, fs0, j) {
      SameMap(m', swapped);
      forall n | n in j.srcs || n == Final(j)
        ensures At(m, n) == At(Loaded(fs0), n)
      {
        MidAt(fs, fs0, jobs, k, n);
        TouchedStep(fs0, jobs, k, n);
      }
      assert Held(fs0, j.srcs, r) == multiset(j.out)[r];
      CopiesSwap(fs0, m, j, r);
    } else {
      SameMap(m', m);
    }
  }

  lemma NotLoaded(fs: Files, n: string)
    requires !Live(n)
    ensures At(Loaded(fs), n).None?
  {
  }

  // The live part of one rewrite's footprint, before and after.
  lemma FootprintLive(fs: Files, fs0: Files, j: Job)
    requires JobOK(fs0, j) && (Undone(fs, fs0, j) || Complete(fs, fs0, j))
    ensures forall n :: n in Footprint(j) && n !in j.srcs && n != Final(j) ==> !Live(n)
    ensures Final(j) in Footprint(j) && Live(Final(j)) && forall n ::
      n in j.srcs ==> n in Footprint(j) && n in Loaded(fs0) && fs0[n] == Segment(Loaded(fs0)[n])
    ensures Final(j) !in Loaded(fs0) && Final(j) !in j.srcs
    ensures Complete(fs, fs0, j) ==> Final(j) in Loaded(fs) && Loaded(fs)[Final(j)] == j.out && forall n ::
      n in j.srcs ==> n !in Loaded(fs)
    ensures !Complete(fs, fs0, j) ==> Final(j) !in Loaded(fs) && forall n ::
      n in j.srcs ==> n in Loaded(fs) && Loaded(fs)[n] == Loaded(fs0)[n]
  {
    JobInFootprint(j);
    assert Ends(j.tail, 't') && HasSuffix(Final(j), DAT);
    forall n | n in j.srcs ensures !Live(n + IDX) { assert Ends(n + IDX, 'x'); }
    assert Staged(j)[0] == 't' && Marker(j)[0] == 't';
    forall n | n in j.srcs && Undone(fs, fs0, j) ensures n in Loaded(fs) && Loaded(fs)[n] == Loaded(fs0)[n] {
      assert Kept(fs, fs0, n);
    }
  }

  lemma {:induction false} MidCopies(fs: Files, fs0: Files, jobs: seq<Job>, k: nat, r: Record)
    requires JobsOK(fs0, jobs) && Settled(fs, fs0, jobs) && k <= |jobs|
    ensures Copies(Mid(fs, fs0, jobs, k), r) == Copies(Loaded(fs0), r)
    decreases k
  {
    hide World, Footprint, Copies, Mid, Loaded, Touched, Undone, Complete, JobsOK;
    if k == 0 {
      forall n
        ensures At(Mid(fs, fs0, jobs, 0), n) == At(Loaded(fs0), n)
      {
        MidAt(fs, fs0, jobs, 0, n);
        NoneTouched(jobs, n);
      }
      SameMap(Mid(fs, fs0, jobs, 0), Loaded(fs0));
    } else {
      MidCopies(fs, fs0, jobs, k - 1, r);
      MidStep(fs, fs0, jobs, k - 1, r);
    }
  }

  // However the crash fell, after recovery the loaded segments hold every record exactly as often as they
  // did before the rewrites began.
  lemma NothingLostOrDoubled(fs: Files, fs0: Files, jobs: seq<Job>, r: Record)
    requires JobsOK(fs0, jobs) && Settled(fs, fs0, jobs)
    ensures Copies(Loaded(fs), r) == Copies(Loaded(fs0), r)
  {
    hide Copies, JobsOK, World;
    MidCopies(fs, fs0, jobs, |jobs|, r);
    AllTouched(fs, fs0, jobs);
  }

  lemma NoneTouched(jobs: seq<Job>, n: string)
    ensures !Touched(jobs, 0, n)
  {
  }

  lemma AllTouched(fs: Files, fs0: Files, jobs: seq<Job>)
    requires World(fs, fs0, jobs)
    ensures Mid(fs, fs0, jobs, |jobs|) == Loaded(fs)
  {
    hide Footprint;
    forall n ensures Touched(jobs, |jobs|, n) <==> !Outside(jobs, n) {}
    forall n | Outside(jobs, n) ensures n in Loaded(fs) <==> n in Loaded(fs0) { assert Kept(fs, fs0, n); }
    forall n | Outside(jobs, n) && n in Loaded(fs) ensures Loaded(fs)[n] == Loaded(fs0)[n] { assert Kept(fs, fs0, n); }
  }

  // A rewrite cut short at any operation, then any number of recoveries cut short at any operation: the
  // first recovery that runs to its end leaves every record present as often as before, and a further one
  // changes nothing.
  method CrashAnywhere(d: Disk, job: Job, env: Env, budgets: seq<nat>, ghost fs0: Files, ghost jobs: seq<Job>,
                       ghost ji: nat)
    requires JobsOK(fs0, jobs) && ji < |jobs| && job == jobs[ji] && forall n :: n in job.srcs ==> n !in env.pinned
    requires World(d.files, fs0, jobs) && Undone(d.files, fs0, job) && Staged(job) !in d.files
    modifies d
    ensures World(d.files, fs0, jobs)
    ensures !d.down && budgets != [] ==> Settled(d.files, fs0, jobs) && Quiet(d.files)
    ensures !d.down && budgets != [] ==> forall r :: Copies(Loaded(d.files), r) == Copies(Loaded(fs0), r)
  {
    hide World, JobsOK, Undone, Settled, Quiet, Loaded, Copies;
    var done := CommitSegmentRewrite(d, job, env, fs0, jobs, ji);
    var i := 0;
    while i < |budgets|
      invariant 0 <= i <= |budgets| && World(d.files, fs0, jobs)
      invariant i > 0 && !d.down ==> Settled(d.files, fs0, jobs) && Quiet(d.files)
    {
      d.Restart(budgets[i]);
      FinishPendingMerges(d, {}, fs0, jobs);
      i := i + 1;
    }
    if !d.down && budgets != [] {
      forall r
        ensures Copies(Loaded(d.files), r) == Copies(Loaded(fs0), r)
      {
        NothingLostOrDoubled(d.files, fs0, jobs, r);
      }
    }
  }

  // ---------------------------------------------------------------- sources a scan still holds

  function Pick(names: seq<string>, p: set<string>): (r: seq<string>)
  {
    if names == [] then []
    else if names[|names| - 1] in p then Pick(names[..|names| - 1], p) + [names[|names| - 1]]
    else Pick(names[..|names| - 1], p)
  }

  lemma {:induction false} PickMember(names: seq<string>, p: set<string>, n: string)
    ensures n in Pick(names, p) <==> n in names && n in p
    decreases |names|
  {
    if names != [] {
      var l := |names| - 1;
      PickMember(names[..l], p, n);
      assert names == names[..l] + [names[l]];
    }
  }

  lemma {:induction false} PickDistinct(names: seq<string>, p: set<string>)
    requires forall i, k :: 0 <= i < k < |names| ==> names[i] != names[k]
    ensures forall i, k :: 0 <= i < k < |Pick(names, p)| ==> Pick(names, p)[i] != Pick(names, p)[k]
    decreases |names|
  {
    if names != [] {
      var l := |names| - 1;
      PickDistinct(names[..l], p);
      PickMember(names[..l], p, names[l]);
    }
  }

  lemma {:induction false} HeldSplit(fs0: Files, names: seq<string>, p: set<string>, q: set<string>, r: Record)
    requires forall n :: n in names ==> (n in p <==> n !in q)
    ensures Held(fs0, names, r) == Held(fs0, Pick(names, p), r) + Held(fs0, Pick(names, q), r)
    decreases |names|
  {
    if names != [] {
      hide Has;
      var l := |names| - 1;
      assert names[l] in p <==> names[l] !in q;
      HeldSplit(fs0, names[..l], p, q, r);
      HeldSnoc(fs0, Pick(names[..l], p), names[l], r);
      HeldSnoc(fs0, Pick(names[..l], q), names[l], r);
    }
  }

  lemma HeldSnoc(fs0: Files, names: seq<string>, n: string, r: Record)
    ensures Held(fs0, names + [n], r) == Held(fs0, names, r) + Has(fs0, n, r)
  {
    assert (names + [n])[..|names|] == names;
  }

  lemma HasNone(fs: Files, n: string, r: Record)
    ensures Has(fs, n, r) == 0 <==> (n in fs && fs[n].Segment? ==> r !in fs[n].recs)
  {
  }

  lemma {:induction false} HeldNone(fs0: Files, names: seq<string>, r: Record)
    ensures Held(fs0, names, r) == 0 <==> forall n :: n in names ==> Has(fs0, n, r) == 0
    decreases |names|
  {
    if names != [] {
      hide Has;
      var l := |names| - 1;
      HeldNone(fs0, names[..l], r);
      assert names == names[..l] + [names[l]];
    }
  }

  // The marker is dropped even when a scan keeps a source: if the machine goes down before that scan lets
  // go, the next open finds the source beside the output. A record is doubled exactly when such a source
  // holds it.
  lemma PinnedExact(fs0: Files, j: Job, env: Env, r: Record)
    requires JobOK(fs0, j)
    ensures Copies(Loaded((fs0 - Unpinned(j, env))[Final(j) := Segment(j.out)]), r) == Copies(Loaded(fs0), r)
      <==> forall n :: n in j.srcs && n in env.pinned ==> r !in fs0[n].recs
  {
    hide Copies, Held, Pick, Final, HasSuffix;
    var fs := (fs0 - Unpinned(j, env))[Final(j) := Segment(j.out)];
    var gone, stay := Pick(j.srcs, Unpinned(j, env)), Pick(j.srcs, env.pinned);
    forall n ensures n in gone <==> n in j.srcs && n in Unpinned(j, env) { PickMember(j.srcs, Unpinned(j, env), n); }
    forall n ensures n in stay <==> n in j.srcs && n in env.pinned { PickMember(j.srcs, env.pinned, n); }
    PickDistinct(j.srcs, Unpinned(j, env));
    HeldSplit(fs0, j.srcs, Unpinned(j, env), env.pinned, r);
    CopiesMinus(fs0, Loaded(fs0), gone, r);
    FinalLive(j);
    CopiesWithout(Loaded(fs), Final(j), r);
    assert Loaded(fs) - {Final(j)} == Loaded(fs0) - NameSet(gone);
    HeldNone(fs0, stay, r);
    assert Held(fs0, j.srcs, r) == multiset(j.out)[r];
  }

  lemma FinalLive(j: Job)
    requires HasSuffix(j.tail, DAT)
    ensures Live(Final(j))
  {
  }

  // One source, held by a scan: its record comes back twice.
  lemma PinnedTwice() returns (fs0: Files, j: Job, env: Env)
    ensures JobOK(fs0, j) && j.srcs != [] && j.srcs[0] in fs0 && fs0[j.srcs[0]] == Segment([7])
    ensures Copies(Loaded((fs0 - Unpinned(j, env))[Final(j) := Segment(j.out)]), 7) != Copies(Loaded(fs0), 7)
  {
    hide Copies, Loaded, JobOK, Final, Unpinned;
    fs0, j := OneJob();
    env := Env(true, Written, true, true, {j.srcs[0]});
    PinnedExact(fs0, j, env, 7);
    assert j.srcs[0] in j.srcs && j.srcs[0] in env.pinned && 7 in fs0[j.srcs[0]].recs;
  }

  lemma OneJob() returns (fs0: Files, j: Job)
    ensures JobOK(fs0, j) && j.srcs != [] && j.srcs[0] in fs0 && fs0[j.srcs[0]] == Segment([7])
  {
    hide Held;
    var n := "seg-1.d0.dat";
    fs0, j := map[n := Segment([7])], Job("2.d0.dat", [n], [7]);
    assert HasSuffix(n, DAT) && HasSuffix(j.tail, DAT) && LIVE <= n;
    assert Final(j)[4] != n[4];
    forall r ensures Held(fs0, j.srcs, r) == multiset(j.out)[r] { HeldOne(fs0, n, r); }
  }

  lemma HeldOne(fs: Files, n: string, r: Record)
    requires n in fs && fs[n].Segment?
    ensures Held(fs, [n], r) == multiset(fs[n].recs)[r]
  {
    HeldSnoc(fs, [], n, r);
    assert [] + [n] == [n];
  }
}
