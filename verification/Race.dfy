/** A segment rewrite racing with deletes: the output is built off the lock, deletes keep landing on the
    source, and the commit copies their sequence numbers across just before it swaps the two. */
module Race {
  // The sequence number of a record nothing has superseded.
  const MAX_SEQ: nat := 0xFFFF_FFFF_FFFF_FFFF

  predicate Seen(born: nat, superseded: nat, s0: nat) { born <= s0 < superseded }

  // One record at a time: copy the source's sequence number where the output's differs.
  method Reconcile(src: array<nat>, dst: array<nat>)
    requires src.Length == dst.Length && src != dst
    modifies dst
    ensures dst[..] == src[..]
  {
    for i := 0 to src.Length
      invariant dst[..i] == src[..i]
    {
      if src[i] != dst[i] { dst[i] := src[i]; }
    }
  }

  // Superseded sequence numbers of the source and of the output built so far, the clock, and the clock at
  // the swap once the output has replaced the source.
  datatype Rewrite = Rewrite(src: seq<nat>, out: seq<nat>, clock: nat, swapped: bool, swapClock: nat)

  // A delete of record i, the builder reading its next record, or the commit.
  datatype Step = Delete(i: nat) | Copy | Swap

  // A delete lands on whichever segment serves; the swap waits for the build and runs under the lock.
  function Apply(r: Rewrite, s: Step, reconcile: bool): (r': Rewrite)
  {
    match s
    case Delete(i) =>
      if r.swapped then
        if i < |r.out| && r.out[i] == MAX_SEQ then r.(out := r.out[i := r.clock + 1], clock := r.clock + 1) else r
      else
        if i < |r.src| && r.src[i] == MAX_SEQ then r.(src := r.src[i := r.clock + 1], clock := r.clock + 1) else r
    case Copy => if !r.swapped && |r.out| < |r.src| then r.(out := r.out + [r.src[|r.out|]]) else r
    case Swap =>
      if !r.swapped && |r.out| == |r.src| then
        r.(out := if reconcile then r.src else r.out, swapped := true, swapClock := r.clock)
      else r
  }

  function Run(r: Rewrite, steps: seq<Step>, reconcile: bool): (r': Rewrite)
  {
    if steps == [] then r else Apply(Run(r, steps[..|steps| - 1], reconcile), steps[|steps| - 1], reconcile)
  }

  function Served(r: Rewrite): (sup: seq<nat>) { if r.swapped then r.out else r.src }

  function Start(sup: seq<nat>, clock: nat): (r: Rewrite) { Rewrite(sup, [], clock, false, 0) }

  // Before it is deleted every snapshot from its birth on sees a record; afterwards those of before the delete do, and
  // none from the delete on, whichever segment serves.
  lemma DeleteHides(r: Rewrite, i: nat, reconcile: bool, born: nat, s0: nat)
    requires i < |Served(r)| && Served(r)[i] == MAX_SEQ && r.clock + 1 < MAX_SEQ && s0 < MAX_SEQ
    ensures Seen(born, Served(r)[i], s0) <==> born <= s0
    ensures var r' := Apply(r, Delete(i), reconcile);
      && |Served(r')| == |Served(r)| && r'.clock == r.clock + 1
      && (Seen(born, Served(r')[i], s0) <==> born <= s0 && s0 <= r.clock)
      && forall k :: 0 <= k < |Served(r)| && k != i ==> Served(r')[k] == Served(r)[k]
  {
  }

  // The same deletes with no rewrite going on.
  function Ideal(r: Rewrite, steps: seq<Step>): (r': Rewrite)
  {
    if steps == [] then r
    else
      var q := Ideal(r, steps[..|steps| - 1]);
      if steps[|steps| - 1].Delete? then Apply(q, steps[|steps| - 1], true) else q
  }

  lemma {:induction false} IdealStays(sup: seq<nat>, clock: nat, steps: seq<Step>)
    ensures !Ideal(Start(sup, clock), steps).swapped
    decreases |steps|
  {
    if steps != [] { IdealStays(sup, clock, steps[..|steps| - 1]); }
  }

  // Whatever the interleaving, what is served is what it would be had no rewrite happened.
  lemma {:induction false} RewriteInvisible(sup: seq<nat>, clock: nat, steps: seq<Step>)
    ensures Served(Run(Start(sup, clock), steps, true)) == Ideal(Start(sup, clock), steps).src
    ensures Run(Start(sup, clock), steps, true).clock == Ideal(Start(sup, clock), steps).clock
    decreases |steps|
  {
    if steps != [] {
      var n := |steps| - 1;
      RewriteInvisible(sup, clock, steps[..n]);
      IdealStays(sup, clock, steps[..n]);
    }
  }

  // No swap changes what any snapshot sees of any record.
  lemma SwapKeepsSnapshots(born: seq<nat>, sup: seq<nat>, clock: nat, steps: seq<Step>, k: nat, s0: nat)
    requires k < |born| == |sup|
    ensures var before, after := Run(Start(sup, clock), steps, true), Run(Start(sup, clock), steps + [Swap], true);
      && |Served(before)| == |Served(after)| == |sup|
      && (Seen(born[k], Served(before)[k], s0) <==> Seen(born[k], Served(after)[k], s0))
  {
    RewriteInvisible(sup, clock, steps);
    RewriteInvisible(sup, clock, steps + [Swap]);
    assert (steps + [Swap])[..|steps|] == steps;
    IdealLength(sup, clock, steps);
  }

  lemma {:induction false} IdealLength(sup: seq<nat>, clock: nat, steps: seq<Step>)
    ensures |Ideal(Start(sup, clock), steps).src| == |sup|
    decreases |steps|
  {
    if steps != [] {
      IdealStays(sup, clock, steps[..|steps| - 1]);
      IdealLength(sup, clock, steps[..|steps| - 1]);
    }
  }

  // ---------------------------------------------------------------- readers still on the source

  // After the swap the two segments differ only where a later delete hit, with a later sequence number.
  ghost predicate Trails(r: Rewrite)
  {
    r.swapped ==>
      && |r.src| == |r.out| && r.swapClock <= r.clock
      && forall k :: 0 <= k < |r.src| ==> r.out[k] == r.src[k] || (r.src[k] == MAX_SEQ && r.swapClock < r.out[k])
  }

  lemma {:induction false} TrailsAlways(sup: seq<nat>, clock: nat, steps: seq<Step>)
    ensures Trails(Run(Start(sup, clock), steps, true))
    decreases |steps|
  {
    if steps != [] { TrailsAlways(sup, clock, steps[..|steps| - 1]); }
  }

  // A scan that pinned the source before the swap sees there exactly what the output would show it.
  lemma PinnedReaderAgrees(born: seq<nat>, sup: seq<nat>, clock: nat, steps: seq<Step>, k: nat, s0: nat)
    requires var r := Run(Start(sup, clock), steps, true);
      r.swapped && k < |r.src| && k < |r.out| && k < |born| && s0 <= r.swapClock < MAX_SEQ
    ensures var r := Run(Start(sup, clock), steps, true); Seen(born[k], r.src[k], s0) <==> Seen(born[k], r.out[k], s0)
  {
    TrailsAlways(sup, clock, steps);
  }

  // ---------------------------------------------------------------- without the reconcile step

  // Some delete hit a live record the builder had already copied.
  predicate LateDelete(sup: seq<nat>, clock: nat, steps: seq<Step>)
  {
    if steps == [] then false
    else
      var q, s := Run(Start(sup, clock), steps[..|steps| - 1], false), steps[|steps| - 1];
      LateDelete(sup, clock, steps[..|steps| - 1])
      || (s.Delete? && !q.swapped && s.i < |q.out| && s.i < |q.src| && q.src[s.i] == MAX_SEQ)
  }

  lemma {:induction false} LateShows(sup: seq<nat>, clock: nat, steps: seq<Step>)
    requires clock + |steps| < MAX_SEQ
    ensures var r := Run(Start(sup, clock), steps, false); r.clock <= clock + |steps|
    ensures var r := Run(Start(sup, clock), steps, false);
      !r.swapped ==>
        |r.out| <= |r.src| && (LateDelete(sup, clock, steps) <==> exists k :: 0 <= k < |r.out| && r.out[k] != r.src[k])
    ensures var r := Run(Start(sup, clock), steps, false);
      !r.swapped ==> forall k :: 0 <= k < |r.out| && r.out[k] != r.src[k] ==> r.src[k] != MAX_SEQ
    decreases |steps|
  {
    if steps != [] {
      var n := |steps| - 1;
      LateShows(sup, clock, steps[..n]);
      var q, r := Run(Start(sup, clock), steps[..n], false), Run(Start(sup, clock), steps, false);
      if !r.swapped && exists k :: 0 <= k < |q.out| && q.out[k] != q.src[k] {
        var k :| 0 <= k < |q.out| && q.out[k] != q.src[k];
        assert r.out[k] != r.src[k];
      }
    }
  }

  // Swapping without it keeps what is served exactly when no such delete happened.
  lemma WithoutReconcile(sup: seq<nat>, clock: nat, steps: seq<Step>)
    requires clock + |steps| < MAX_SEQ
    requires var r := Run(Start(sup, clock), steps, false); !r.swapped && |r.out| == |r.src|
    ensures var r := Run(Start(sup, clock), steps, false);
      Served(Apply(r, Swap, false)) == Served(r) <==> !LateDelete(sup, clock, steps)
  {
    LateShows(sup, clock, steps);
  }

  // A delete landing between the copy and the swap would come undone.
  lemma Revived()
    ensures var r := Run(Start([MAX_SEQ], 0), [Copy, Delete(0), Swap], false); r.swapped && Served(r) == [MAX_SEQ]
    ensures Ideal(Start([MAX_SEQ], 0), [Copy, Delete(0), Swap]).src == [1]
  {
    var a, b, c := [Copy], [Copy, Delete(0)], [Copy, Delete(0), Swap];
    assert c[..2] == b && b[..1] == a && a[..0] == [];
    var s := Start([MAX_SEQ], 0);
    assert Run(s, a, false) == s.(out := [MAX_SEQ]);
    assert Run(s, b, false) == Rewrite([1], [MAX_SEQ], 1, false, 0);
    assert Ideal(s, a) == s;
    assert Ideal(s, b) == s.(src := [1], clock := 1);
  }

  // ---------------------------------------------------------------- a crash around the swap

  // The rewrite in memory, the sequence numbers each file has on disk, and whether the intent is recorded.
  datatype Media = Media(r: Rewrite, onSrc: seq<nat>, onOut: seq<nat>, marked: bool)

  // A step of the rewrite, a number of either file reaching the disk, or the intent: the output is flushed and
  // the marker written, after which recovery serves the output.
  datatype Event = Work(s: Step) | SyncSource(i: nat) | SyncOutput(i: nat) | Mark

  function Do(m: Media, e: Event): (m': Media)
  {
    match e
    case Work(s) => if s.Swap? && !m.marked then m else m.(r := Apply(m.r, s, true))
    case SyncSource(i) => if i < |m.onSrc| && i < |m.r.src| then m.(onSrc := m.onSrc[i := m.r.src[i]]) else m
    case SyncOutput(i) => if i < |m.onOut| && i < |m.r.out| then m.(onOut := m.onOut[i := m.r.out[i]]) else m
    case Mark => if !m.marked && |m.r.out| == |m.r.src| then m.(onOut := m.r.out, marked := true) else m
  }

  function After(sup: seq<nat>, clock: nat, es: seq<Event>): (m: Media)
  {
    if es == [] then Media(Start(sup, clock), sup, [], false) else Do(After(sup, clock, es[..|es| - 1]), es[|es| - 1])
  }

  // What the next process reads.
  function Recovered(m: Media): (sup: seq<nat>) { if m.marked then m.onOut else m.onSrc }

  // Record k was deleted on the source after the builder had copied it.
  predicate Late(sup: seq<nat>, clock: nat, es: seq<Event>, k: nat)
  {
    if es == [] then false
    else
      var m, e := After(sup, clock, es[..|es| - 1]), es[|es| - 1];
      Late(sup, clock, es[..|es| - 1], k) ||
        (e == Work(Delete(k)) && !m.r.swapped && k < |m.r.out| && k < |m.r.src| && m.r.src[k] == MAX_SEQ)
  }

  // The output's number for it has reached the disk since the swap.
  predicate Reached(sup: seq<nat>, clock: nat, es: seq<Event>, k: nat)
  {
    if es == [] then false
    else
      Reached(sup, clock, es[..|es| - 1], k) ||
        (es[|es| - 1] == SyncOutput(k) && After(sup, clock, es[..|es| - 1]).r.swapped)
  }

  // What memory and disk hold of one record, however the rewrite, the deletes and the disk interleave.
  ghost predicate RecordAt(m: Media, n: nat, k: nat, late: bool, reached: bool)
  {
    && |m.r.src| == |m.onSrc| == n && |m.r.out| <= n && (m.marked || m.r.swapped ==> |m.r.out| == n) &&
       (m.marked ==> |m.onOut| == n)
    && (m.r.swapped ==> m.marked) && (reached ==> m.r.swapped)
    && (k < n ==>
        && (late ==> m.r.src[k] != MAX_SEQ && k < |m.r.out|)
        && (m.onSrc[k] != MAX_SEQ ==> m.r.src[k] != MAX_SEQ)
        && (!m.r.swapped && k < |m.r.out| ==> (m.r.out[k] == MAX_SEQ <==> m.r.src[k] == MAX_SEQ || late))
        && (m.r.swapped && m.r.out[k] == MAX_SEQ ==> m.r.src[k] == MAX_SEQ)
        && (m.marked && !reached ==> (m.onOut[k] == MAX_SEQ <==> m.r.src[k] == MAX_SEQ || late))
        && (reached && m.onOut[k] == MAX_SEQ ==> m.r.src[k] == MAX_SEQ))
  }

  lemma RecordStep(m: Media, e: Event, n: nat, k: nat, late: bool, reached: bool)
    requires RecordAt(m, n, k, late, reached) && m.r.clock + 1 < MAX_SEQ
    ensures RecordAt(Do(m, e), n, k,
                     late || (e == Work(Delete(k)) && !m.r.swapped && k < |m.r.out| && k < |m.r.src| &&
                       m.r.src[k] == MAX_SEQ),
                     reached || (e == SyncOutput(k) && m.r.swapped))
    ensures m.r.clock <= Do(m, e).r.clock <= m.r.clock + 1
  {
  }

  lemma {:induction false} RecordAlways(sup: seq<nat>, clock: nat, es: seq<Event>, k: nat)
    requires clock + |es| < MAX_SEQ
    ensures RecordAt(After(sup, clock, es), |sup|, k, Late(sup, clock, es, k), Reached(sup, clock, es, k)) &&
      After(sup, clock, es).r.clock <= clock + |es|
    decreases |es|
  {
    if es != [] {
      var n := |es| - 1;
      RecordAlways(sup, clock, es[..n], k);
      hide RecordAt, Do;
      RecordStep(After(sup, clock, es[..n]), es[n], |sup|, k, Late(sup, clock, es[..n], k),
        Reached(sup, clock, es[..n], k));
    }
  }

  // A delete that is on disk in the source is lost by a crash if and only if the intent is recorded, the delete
  // landed after the record was copied, and the output's number has not reached the disk since the swap.
  lemma RevivedExactly(sup: seq<nat>, clock: nat, es: seq<Event>, k: nat)
    requires clock + |es| < MAX_SEQ && k < |sup|
    ensures var m := After(sup, clock, es);
      && |m.onSrc| == |sup| == |Recovered(m)|
      && (m.onSrc[k] != MAX_SEQ ==>
          (Recovered(m)[k] == MAX_SEQ <==> m.marked && Late(sup, clock, es, k) && !Reached(sup, clock, es, k)))
  {
    hide After, Late, Reached;
    RecordAlways(sup, clock, es, k);
  }

  // The window is there: copied, deleted, the delete on disk, the intent recorded, and then the crash.
  lemma RevivedByCrash()
    ensures var m := After([MAX_SEQ], 0, [Work(Copy), Work(Delete(0)), SyncSource(0), Mark]);
      m.onSrc == [1] && Recovered(m) == [MAX_SEQ]
  {
    var a, b, c, d := [Work(Copy)], [Work(Copy), Work(Delete(0))], [Work(Copy), Work(Delete(0)), SyncSource(0)],
      [Work(Copy), Work(Delete(0)), SyncSource(0), Mark];
    assert d[..3] == c && c[..2] == b && b[..1] == a && a[..0] == [];
    var s := Start([MAX_SEQ], 0);
    assert After([MAX_SEQ], 0, a) == Media(s.(out := [MAX_SEQ]), [MAX_SEQ], [], false);
    assert After([MAX_SEQ], 0, b) == Media(Rewrite([1], [MAX_SEQ], 1, false, 0), [MAX_SEQ], [], false);
    assert After([MAX_SEQ], 0, c) == Media(Rewrite([1], [MAX_SEQ], 1, false, 0), [1], [], false);
  }
}
