/**
  The product image pool (backend/app/controller/productController.js, lines 146-183): up to two
  workers share `nextIndex`. Between two awaits a worker runs undisturbed, so one atomic step is
  "the upload of one worker settles, its result is stored, the worker takes its next file".
  A schedule says which worker's upload settles next.
*/
module UploadPool {
  import opened Common

  const UPLOAD_CONCURRENCY := 2

  datatype Field = MainImage | GalleryImages | OtherField

  /** What was submitted under which form field, and how its upload ends: a URL or an error. */
  datatype File = File(field: Field, outcome: Option<string>)

  datatype State = State(next: nat, busy: seq<Option<nat>>, gallery: seq<Option<string>>, main: Option<string>)

  function WorkerCount(files: seq<File>): nat {
    if |files| < UPLOAD_CONCURRENCY then |files| else UPLOAD_CONCURRENCY
  }

  // ---------------------------------------------------------------- steps

  /** The worker's loop test and `nextIndex++`. */
  function Take(files: seq<File>, s: State, w: nat): State
    requires w < |s.busy|
  {
    if s.next < |files| then s.(next := s.next + 1, busy := s.busy[w := Some(s.next)])
    else s.(busy := s.busy[w := None])
  }

  /** Storing the result of file `i`; a failed upload only gets logged. */
  function Store(files: seq<File>, s: State, i: nat): State
    requires i < |files| && |s.gallery| == |files|
  {
    match files[i].outcome
    case None => s
    case Some(url) =>
      match files[i].field
      case MainImage => s.(main := Some(url))
      case GalleryImages => s.(gallery := s.gallery[i := Some(url)])
      case OtherField => s
  }

  predicate Busy(s: State, w: nat) {
    w < |s.busy| && s.busy[w].Some?
  }

  function Settle(files: seq<File>, s: State, w: nat): State
    requires Inv(files, s) && Busy(s, w)
  {
    Take(files, Store(files, s, s.busy[w].value), w)
  }

  /** `Array.from({length: workerCount}, () => worker())`: each worker runs up to its first await. */
  function Started(files: seq<File>, main: Option<string>, workers: nat): State
    requires workers <= WorkerCount(files)
  {
    State(workers, seq(workers, w requires 0 <= w < workers => Some(w)), seq(|files|, _ => None), main)
  }

  // ---------------------------------------------------------------- invariant

  predicate InFlight(s: State, i: nat) {
    exists w :: 0 <= w < |s.busy| && s.busy[w] == Some(i)
  }

  /** Files are handed out in order, no two workers hold the same one, a worker stops only when
      none is left, and exactly the settled gallery uploads have left their URL. */
  predicate Inv(files: seq<File>, s: State) {
    && s.next <= |files| && |s.gallery| == |files| && |s.busy| == WorkerCount(files)
    && (forall w :: 0 <= w < |s.busy| && s.busy[w].Some? ==> s.busy[w].value < s.next)
    && (forall v, w :: 0 <= v < w < |s.busy| && s.busy[v].Some? ==> s.busy[v] != s.busy[w])
    && (forall w :: 0 <= w < |s.busy| && s.busy[w].None? ==> s.next == |files|)
    && (forall i :: 0 <= i < |files| ==>
          s.gallery[i] == if i < s.next && !InFlight(s, i) && files[i].field == GalleryImages then files[i].outcome else None)
  }

  predicate Idle(s: State) {
    forall w :: 0 <= w < |s.busy| ==> s.busy[w].None?
  }

  lemma StartedInv(files: seq<File>, main: Option<string>)
    ensures Inv(files, Started(files, main, WorkerCount(files)))
  {
    var s := Started(files, main, WorkerCount(files));
    forall i | 0 <= i < s.next ensures InFlight(s, i) {
      assert s.busy[i] == Some(i);
    }
  }

  /** Settling takes the worker's file out of flight and puts the next one, if any, in. */
  lemma SettleMoves(files: seq<File>, s: State, w: nat, j: nat)
    requires Inv(files, s) && Busy(s, w)
    ensures InFlight(Settle(files, s, w), j) <==>
            (InFlight(s, j) && j != s.busy[w].value) || (j == s.next && s.next < |files|)
  {
    var t, i := Settle(files, s, w), s.busy[w].value;
    if InFlight(s, j) && j != i {
      var v :| 0 <= v < |s.busy| && s.busy[v] == Some(j);
      assert t.busy[v] == Some(j);
    }
    if InFlight(t, j) && j != s.next {
      var v :| 0 <= v < |t.busy| && t.busy[v] == Some(j);
      assert v != w && s.busy[v] == Some(j);
    }
    if j == s.next && s.next < |files| {
      assert t.busy[w] == Some(j);
    }
    if InFlight(t, s.next) && s.next == |files| {
      var v :| 0 <= v < |t.busy| && t.busy[v] == Some(s.next);
      assert v != w && s.busy[v] == Some(s.next);
    }
  }

  lemma SettleInv(files: seq<File>, s: State, w: nat)
    requires Inv(files, s) && Busy(s, w)
    ensures Inv(files, Settle(files, s, w))
  {
    var t, i := Settle(files, s, w), s.busy[w].value;
    assert InFlight(s, i);
    forall j | 0 <= j < |files|
      ensures t.gallery[j] == if j < t.next && !InFlight(t, j) && files[j].field == GalleryImages then files[j].outcome else None
    {
      SettleMoves(files, s, w, j);
    }
  }

  // ---------------------------------------------------------------- runs

  predicate Possible(files: seq<File>, s: State, schedule: seq<nat>)
    requires Inv(files, s)
    decreases |schedule|
  {
    schedule == [] ||
    (Busy(s, schedule[0]) && (SettleInv(files, s, schedule[0]); Possible(files, Settle(files, s, schedule[0]), schedule[1..])))
  }

  function Run(files: seq<File>, s: State, schedule: seq<nat>): (t: State)
    requires Inv(files, s) && Possible(files, s, schedule)
    ensures Inv(files, t)
    decreases |schedule|
  {
    if schedule == [] then s
    else
      SettleInv(files, s, schedule[0]);
      Run(files, Settle(files, s, schedule[0]), schedule[1..])
  }

  /** The files settled along a schedule, in the order in which they settle. */
  function Settled(files: seq<File>, s: State, schedule: seq<nat>): seq<nat>
    requires Inv(files, s) && Possible(files, s, schedule)
    decreases |schedule|
  {
    if schedule == [] then []
    else
      SettleInv(files, s, schedule[0]);
      [s.busy[schedule[0]].value] + Settled(files, Settle(files, s, schedule[0]), schedule[1..])
  }

  /** Uploads still to settle: every possible schedule is at most this long. */
  function Pending(files: seq<File>, s: State): nat
    requires s.next <= |files|
  {
    |files| - s.next + BusyCount(s.busy)
  }

  function BusyCount(busy: seq<Option<nat>>): nat {
    if busy == [] then 0 else (if busy[0].Some? then 1 else 0) + BusyCount(busy[1..])
  }

  lemma {:induction false} BusyCountUpdate(busy: seq<Option<nat>>, w: nat, b: Option<nat>)
    requires w < |busy|
    ensures BusyCount(busy[w := b]) == BusyCount(busy) - (if busy[w].Some? then 1 else 0) + (if b.Some? then 1 else 0)
    decreases |busy|
  {
    if w > 0 {
      BusyCountUpdate(busy[1..], w - 1, b);
      assert busy[w := b][1..] == busy[1..][w - 1 := b];
    } else {
      assert busy[w := b][1..] == busy[1..];
    }
  }

  lemma SettleProgress(files: seq<File>, s: State, w: nat)
    requires Inv(files, s) && Busy(s, w)
    ensures Inv(files, Settle(files, s, w))
    ensures Pending(files, Settle(files, s, w)) + 1 == Pending(files, s)
  {
    SettleInv(files, s, w);
    var t := Settle(files, s, w);
    BusyCountUpdate(s.busy, w, t.busy[w]);
  }

  lemma {:induction false} IdleCount(busy: seq<Option<nat>>)
    ensures BusyCount(busy) == 0 <==> forall w :: 0 <= w < |busy| ==> busy[w].None?
    decreases |busy|
  {
    if busy != [] {
      IdleCount(busy[1..]);
      assert forall w :: 1 <= w < |busy| ==> busy[w] == busy[1..][w - 1];
    }
  }

  /** Under every schedule the pool stops after exactly one settlement per file. */
  lemma {:induction false} PoolTerminates(files: seq<File>, s: State, schedule: seq<nat>)
    requires Inv(files, s) && files != [] && Possible(files, s, schedule)
    ensures Pending(files, Run(files, s, schedule)) + |schedule| == Pending(files, s)
    ensures Idle(Run(files, s, schedule)) <==> |schedule| == Pending(files, s)
    decreases |schedule|
  {
    if schedule == [] {
      IdleCount(s.busy);
    } else {
      SettleProgress(files, s, schedule[0]);
      PoolTerminates(files, Settle(files, s, schedule[0]), schedule[1..]);
    }
  }

  /** What a file may still do in a state: it has not settled yet. */
  predicate Open(files: seq<File>, s: State, i: nat) {
    i < |files| && (i >= s.next || InFlight(s, i))
  }

  lemma SettleCloses(files: seq<File>, s: State, w: nat)
    requires Inv(files, s) && Busy(s, w)
    ensures Open(files, s, s.busy[w].value)
    ensures forall j: nat :: Open(files, Settle(files, s, w), j) <==> Open(files, s, j) && j != s.busy[w].value
  {
    var t, i := Settle(files, s, w), s.busy[w].value;
    assert InFlight(s, i);
    forall j: nat ensures Open(files, t, j) <==> Open(files, s, j) && j != i {
      if InFlight(t, j) && j < s.next {
        var v :| 0 <= v < |t.busy| && t.busy[v] == Some(j);
        assert v != w && s.busy[v] == Some(j);
      }
      if InFlight(s, j) && j != i {
        var v :| 0 <= v < |s.busy| && s.busy[v] == Some(j);
        assert t.busy[v] == Some(j);
      }
      if s.next < |files| {
        assert t.busy[w] == Some(s.next);
      }
    }
  }

  /** Along every schedule a file settles at most once, and those that settle are exactly those
      no longer open. */
  lemma {:induction false} EachFileOnce(files: seq<File>, s: State, schedule: seq<nat>)
    requires Inv(files, s) && Possible(files, s, schedule)
    ensures forall j, k :: 0 <= j < k < |Settled(files, s, schedule)| ==>
              Settled(files, s, schedule)[j] != Settled(files, s, schedule)[k]
    ensures forall i: nat :: i in Settled(files, s, schedule) <==> Open(files, s, i) && !Open(files, Run(files, s, schedule), i)
    decreases |schedule|
  {
    if schedule != [] {
      var w := schedule[0];
      var t, i := Settle(files, s, w), s.busy[w].value;
      SettleInv(files, s, w);
      SettleCloses(files, s, w);
      EachFileOnce(files, t, schedule[1..]);
      StaysSettled(files, t, schedule[1..], i);
      var rest := Settled(files, t, schedule[1..]);
      assert Settled(files, s, schedule) == [i] + rest;
      assert i !in rest;
      ClosedStaysClosed(files, t, schedule[1..]);
    }
  }

  lemma ClosedStaysClosed(files: seq<File>, s: State, schedule: seq<nat>)
    requires Inv(files, s) && Possible(files, s, schedule)
    ensures forall i: nat :: Open(files, Run(files, s, schedule), i) ==> Open(files, s, i)
  {
    forall i: nat | !Open(files, s, i) ensures !Open(files, Run(files, s, schedule), i) {
      StaysSettled(files, s, schedule, i);
    }
  }

  lemma {:induction false} StaysSettled(files: seq<File>, s: State, schedule: seq<nat>, i: nat)
    requires Inv(files, s) && Possible(files, s, schedule) && !Open(files, s, i)
    ensures !Open(files, Run(files, s, schedule), i)
    decreases |schedule|
  {
    if schedule != [] {
      SettleInv(files, s, schedule[0]);
      SettleCloses(files, s, schedule[0]);
      StaysSettled(files, Settle(files, s, schedule[0]), schedule[1..], i);
    }
  }

  /** At the start every file is open and at the end none is, so a complete schedule settles each
      file exactly once. */
  lemma CompleteSettlesAll(files: seq<File>, main: Option<string>, schedule: seq<nat>)
    requires files != [] && Complete(files, main, schedule)
    ensures forall i: nat :: i in Settled(files, Started(files, main, WorkerCount(files)), schedule) <==> i < |files|
  {
    var s := Started(files, main, WorkerCount(files));
    EachFileOnce(files, s, schedule);
    var t := Run(files, s, schedule);
    assert t.busy[0].None?;
    forall i: nat | i < |files| ensures Open(files, s, i) && !Open(files, t, i) {
      assert i < s.next ==> s.busy[i] == Some(i);
    }
  }

  // ---------------------------------------------------------------- the gallery

  /** `galleryUrls.filter(Boolean)`. */
  function Truthy(urls: seq<Option<string>>): seq<string> {
    if urls == [] then []
    else (if urls[0].Some? && urls[0].value != "" then [urls[0].value] else []) + Truthy(urls[1..])
  }

  /** The successful gallery uploads, in the order in which the files were submitted. */
  function GalleryOf(files: seq<File>): seq<string> {
    if files == [] then []
    else (if files[0].field == GalleryImages && files[0].outcome.Some? && files[0].outcome.value != ""
          then [files[0].outcome.value] else []) + GalleryOf(files[1..])
  }

  lemma {:induction false} TruthyIsGallery(files: seq<File>, urls: seq<Option<string>>)
    requires |urls| == |files|
    requires forall i :: 0 <= i < |files| ==> urls[i] == if files[i].field == GalleryImages then files[i].outcome else None
    ensures Truthy(urls) == GalleryOf(files)
    decreases |files|
  {
    if files != [] {
      TruthyIsGallery(files[1..], urls[1..]);
    }
  }

  /** Whatever the schedule, the finished pool holds the gallery in original file order. */
  lemma GalleryIsScheduleFree(files: seq<File>, s: State)
    requires files != [] && Inv(files, s) && Idle(s)
    ensures Truthy(s.gallery) == GalleryOf(files)
  {
    assert s.busy[0].None?;
    TruthyIsGallery(files, s.gallery);
  }

  // ---------------------------------------------------------------- the main image

  predicate MainUpload(files: seq<File>, i: nat) {
    i < |files| && files[i].field == MainImage && files[i].outcome.Some?
  }

  predicate NoMain(files: seq<File>, settled: seq<nat>) {
    forall n :: 0 <= n < |settled| ==> !MainUpload(files, settled[n])
  }

  /** The `n`th settlement is the last one of a successful main upload. */
  predicate LastMain(files: seq<File>, settled: seq<nat>, n: nat) {
    n < |settled| && MainUpload(files, settled[n]) && NoMain(files, settled[n + 1..])
  }

  /** The settlements of a run, taken for the main image alone. */
  function MainFrom(files: seq<File>, settled: seq<nat>, main: Option<string>): Option<string> {
    if settled == [] then main
    else MainFrom(files, settled[1..], if MainUpload(files, settled[0]) then files[settled[0]].outcome else main)
  }

  lemma {:induction false} RunMain(files: seq<File>, s: State, schedule: seq<nat>)
    requires Inv(files, s) && Possible(files, s, schedule)
    ensures Run(files, s, schedule).main == MainFrom(files, Settled(files, s, schedule), s.main)
    decreases |schedule|
  {
    if schedule != [] {
      var w := schedule[0];
      var t, j := Settle(files, s, w), s.busy[w].value;
      SettleInv(files, s, w);
      RunMain(files, t, schedule[1..]);
      var rest := Settled(files, t, schedule[1..]);
      assert Settled(files, s, schedule) == [j] + rest && ([j] + rest)[1..] == rest;
      assert t.main == if MainUpload(files, j) then files[j].outcome else s.main;
    }
  }

  lemma {:induction false} MainFromNone(files: seq<File>, settled: seq<nat>, main: Option<string>)
    requires NoMain(files, settled)
    ensures MainFrom(files, settled, main) == main
    decreases |settled|
  {
    if settled != [] {
      MainFromNone(files, settled[1..], main);
    }
  }

  lemma {:induction false} MainFromLast(files: seq<File>, settled: seq<nat>, main: Option<string>, n: nat)
    requires LastMain(files, settled, n)
    ensures MainFrom(files, settled, main) == files[settled[n]].outcome
    decreases n
  {
    var next := if MainUpload(files, settled[0]) then files[settled[0]].outcome else main;
    if n == 0 {
      MainFromNone(files, settled[1..], next);
    } else {
      assert settled[1..][n..] == settled[n + 1..];
      MainFromLast(files, settled[1..], next, n - 1);
    }
  }

  /** The main image after a run is that of the last successful main upload to settle; without one
      it is what it was. */
  lemma MainIsLastSettled(files: seq<File>, s: State, schedule: seq<nat>)
    requires Inv(files, s) && Possible(files, s, schedule)
    ensures var t, settled := Run(files, s, schedule), Settled(files, s, schedule);
            && (NoMain(files, settled) ==> t.main == s.main)
            && (forall n: nat :: LastMain(files, settled, n) ==> t.main == files[settled[n]].outcome)
  {
    RunMain(files, s, schedule);
    var settled := Settled(files, s, schedule);
    if NoMain(files, settled) {
      MainFromNone(files, settled, s.main);
    }
    forall n: nat | LastMain(files, settled, n) ensures MainFrom(files, settled, s.main) == files[settled[n]].outcome {
      MainFromLast(files, settled, s.main, n);
    }
  }

  lemma {:induction false} SomeMainIsLast(files: seq<File>, settled: seq<nat>)
    ensures NoMain(files, settled) || exists n: nat :: LastMain(files, settled, n)
    decreases |settled|
  {
    if !NoMain(files, settled) {
      if NoMain(files, settled[1..]) {
        assert LastMain(files, settled, 0) by {
          assert forall n :: 1 <= n < |settled| ==> settled[n] == settled[1..][n - 1];
        }
      } else {
        SomeMainIsLast(files, settled[1..]);
        var n: nat :| LastMain(files, settled[1..], n);
        assert settled[n + 2..] == settled[1..][n + 1..];
        assert LastMain(files, settled, n + 1);
      }
    }
  }

  ghost predicate Agree(files: seq<File>) {
    forall i: nat, j: nat :: MainUpload(files, i) && MainUpload(files, j) ==> files[i].outcome == files[j].outcome
  }

  ghost predicate Complete(files: seq<File>, main: Option<string>, schedule: seq<nat>)
  {
    && Inv(files, Started(files, main, WorkerCount(files)))
    && Possible(files, Started(files, main, WorkerCount(files)), schedule)
    && Idle(Run(files, Started(files, main, WorkerCount(files)), schedule))
  }

  ghost function MainAfter(files: seq<File>, main: Option<string>, schedule: seq<nat>): Option<string>
    requires Complete(files, main, schedule)
  {
    Run(files, Started(files, main, WorkerCount(files)), schedule).main
  }

  lemma AgreeingMain(files: seq<File>, main: Option<string>, a: seq<nat>)
    requires files != [] && Agree(files) && Complete(files, main, a)
    ensures forall i: nat :: MainUpload(files, i) ==> MainAfter(files, main, a) == files[i].outcome
    ensures (forall i: nat :: !MainUpload(files, i)) ==> MainAfter(files, main, a) == main
  {
    var s := Started(files, main, WorkerCount(files));
    var settled := Settled(files, s, a);
    CompleteSettlesAll(files, main, a);
    MainIsLastSettled(files, s, a);
    RunMain(files, s, a);
    SomeMainIsLast(files, settled);
    forall i: nat | MainUpload(files, i) ensures MainAfter(files, main, a) == files[i].outcome {
      assert i in settled;
      var k :| 0 <= k < |settled| && settled[k] == i;
      assert !NoMain(files, settled);
      var n: nat :| LastMain(files, settled, n);
      MainFromLast(files, settled, s.main, n);
    }
  }

  lemma {:induction false} RunJoin(files: seq<File>, s: State, a: seq<nat>, b: seq<nat>)
    requires Inv(files, s) && Possible(files, s, a) && Possible(files, Run(files, s, a), b)
    ensures Possible(files, s, a + b) && Run(files, s, a + b) == Run(files, Run(files, s, a), b)
    decreases |a|
  {
    if a == [] {
      assert a + b == b;
    } else {
      SettleInv(files, s, a[0]);
      var t := Settle(files, s, a[0]);
      assert a == [a[0]] + a[1..] && a + b == [a[0]] + (a[1..] + b);
      RunJoin(files, t, a[1..], b);
    }
  }

  lemma RunThenSettle(files: seq<File>, s: State, a: seq<nat>, w: nat)
    requires Inv(files, s) && Possible(files, s, a) && Busy(Run(files, s, a), w)
    ensures Possible(files, s, a + [w]) && Inv(files, Settle(files, Run(files, s, a), w))
    ensures Run(files, s, a + [w]) == Settle(files, Run(files, s, a), w)
  {
    var t := Run(files, s, a);
    SettleInv(files, t, w);
    RunJoin(files, s, a, [w]);
  }

  /** One worker alone can drain all that is left while the other keeps waiting for its upload. */
  lemma {:induction false} Drain(files: seq<File>, s: State, w: nat, v: nat) returns (a: seq<nat>)
    requires Inv(files, s) && |s.busy| == 2 && w < 2 && v < 2 && v != w
    ensures Possible(files, s, a) && Run(files, s, a).busy[w].None? && Run(files, s, a).busy[v] == s.busy[v]
    decreases Pending(files, s)
  {
    if s.busy[w].None? {
      a := [];
    } else {
      var t := Settle(files, s, w);
      assert |t.busy| == 2 && t.busy[v] == s.busy[v];
      SettleProgress(files, s, w);
      var b := Drain(files, t, w, v);
      a := [w] + b;
    }
  }

  /** Worker 0 alone can go on until it holds file `k`. */
  lemma {:induction false} Advance(files: seq<File>, s: State, k: nat) returns (a: seq<nat>)
    requires Inv(files, s) && |s.busy| == 2 && s.busy[0].Some? && s.next <= k < |files|
    ensures Possible(files, s, a) && Run(files, s, a).busy[0] == Some(k)
    decreases k - s.next
  {
    SettleInv(files, s, 0);
    var t := Settle(files, s, 0);
    if s.next == k {
      a := [0];
      assert a[1..] == [];
    } else {
      var b := Advance(files, t, k);
      a := [0] + b;
      assert a[1..] == b;
    }
  }

  /** Any main upload can be the last one to settle. */
  lemma LastToSettle(files: seq<File>, main: Option<string>, k: nat) returns (a: seq<nat>)
    requires |files| >= 2 && MainUpload(files, k)
    ensures Complete(files, main, a) && MainAfter(files, main, a) == files[k].outcome
  {
    StartedInv(files, main);
    var s := Started(files, main, WorkerCount(files));
    var v := if k == 1 then 1 else 0;
    var first: seq<nat> := [];
    if k >= 2 {
      first := Advance(files, s, k);
    }
    var mid := Run(files, s, first);
    var drain := Drain(files, mid, 1 - v, v);
    assert Possible(files, s, first + drain) && Run(files, s, first + drain) == Run(files, mid, drain) by {
      RunJoin(files, s, first, drain);
    }
    RunThenSettle(files, s, first + drain, v);
    a := first + drain + [v];
  }

  /** Every complete schedule leaves the same main image. */
  ghost predicate ScheduleFree(files: seq<File>, main: Option<string>) {
    forall a, b :: Complete(files, main, a) && Complete(files, main, b) ==>
      MainAfter(files, main, a) == MainAfter(files, main, b)
  }

  /**
    The main image depends on the schedule exactly when two successful uploads under `mainImage`
    ended with different URLs.
  */
  lemma MainScheduleFreeIff(files: seq<File>, main: Option<string>)
    requires files != []
    ensures ScheduleFree(files, main) <==> Agree(files)
  {
    if Agree(files) {
      forall a, b | Complete(files, main, a) && Complete(files, main, b)
        ensures MainAfter(files, main, a) == MainAfter(files, main, b)
      {
        AgreeingMain(files, main, a);
        AgreeingMain(files, main, b);
      }
    } else {
      var i: nat, j: nat :| MainUpload(files, i) && MainUpload(files, j) && files[i].outcome != files[j].outcome;
      var a := LastToSettle(files, main, i);
      var b := LastToSettle(files, main, j);
    }
  }

  /** The same submission, whose uploads may end otherwise. */
  predicate SameForm(files: seq<File>, others: seq<File>) {
    |files| == |others| && forall i :: 0 <= i < |files| ==> files[i].field == others[i].field
  }

  predicate OneMain(files: seq<File>) {
    forall i, j :: 0 <= i < j < |files| ==> files[i].field != MainImage || files[j].field != MainImage
  }

  /** Uploads that end with `a` for file `i` and with `b` for all others. */
  function Otherwise(files: seq<File>, i: nat, a: string, b: string): (others: seq<File>)
    ensures SameForm(files, others)
    ensures forall k :: 0 <= k < |files| ==> others[k].outcome == Some(if k == i then a else b)
    ensures a != b && i < |files| && files[i].field == MainImage ==>
              forall j: nat :: j < |files| && j != i && files[j].field == MainImage ==> !Agree(others)
  {
    var others := seq(|files|, k requires 0 <= k < |files| => File(files[k].field, Some(if k == i then a else b)));
    assert forall k: nat :: k < |files| && files[k].field == MainImage ==> MainUpload(others, k);
    others
  }

  /** What the form alone decides: the main image is certain, however the uploads end, exactly when
      at most one file is submitted under `mainImage`. */
  lemma FormScheduleFreeIff(files: seq<File>, main: Option<string>)
    requires files != []
    ensures (forall others :: SameForm(files, others) ==> ScheduleFree(others, main)) <==> OneMain(files)
  {
    if OneMain(files) {
      forall others | SameForm(files, others) ensures ScheduleFree(others, main) {
        MainScheduleFreeIff(others, main);
      }
    } else {
      var i, j :| 0 <= i < j < |files| && files[i].field == files[j].field == MainImage;
      var others := Otherwise(files, i, "a", "b");
      assert "a"[0] != "b"[0];
      MainScheduleFreeIff(others, main);
      assert SameForm(files, others) && !ScheduleFree(others, main);
    }
  }

  // ---------------------------------------------------------------- the pool itself

  datatype Product = Product(mainImage: Option<string>, galleryImages: seq<string>)

  class Pool {
    const files: seq<File>
    var nextIndex: nat
    var busy: seq<Option<nat>>
    var galleryUrls: seq<Option<string>>
    var mainImage: Option<string>

    ghost function View(): State
      reads this
    {
      State(nextIndex, busy, galleryUrls, mainImage)
    }

    constructor (files: seq<File>, main: Option<string>)
      ensures this.files == files && View() == Started(files, main, 0).(busy := seq(WorkerCount(files), _ => None))
    {
      this.files := files;
      nextIndex := 0;
      busy := seq(WorkerCount(files), _ => None);
      galleryUrls := seq(|files|, _ => None);
      mainImage := main;
    }

    /** The loop head: take the next index or stop. */
    method TakeNext(w: nat)
      requires w < |busy|
      modifies this
      ensures View() == Take(files, old(View()), w)
    {
      if nextIndex < |files| {
        busy := busy[w := Some(nextIndex)];
        nextIndex := nextIndex + 1;
      } else {
        busy := busy[w := None];
      }
    }

    /** What runs when the upload of worker `w` settles. */
    method Resume(w: nat)
      requires Inv(files, View()) && Busy(View(), w)
      modifies this
      ensures View() == Settle(files, old(View()), w)
    {
      var index := busy[w].value;
      var file := files[index];
      if file.outcome.Some? {
        if file.field == MainImage {
          mainImage := file.outcome;
        } else if file.field == GalleryImages {
          galleryUrls := galleryUrls[index := file.outcome];
        }
      }
      TakeNext(w);
    }

    /** Every worker runs up to its first await. */
    method StartWorkers(ghost main: Option<string>)
      requires View() == Started(files, main, 0).(busy := seq(WorkerCount(files), _ => None))
      modifies this
      ensures View() == Started(files, main, WorkerCount(files))
    {
      var workers := WorkerCount(files);
      for w := 0 to workers
        invariant nextIndex == w && |busy| == workers
        invariant forall v :: 0 <= v < w ==> busy[v] == Some(v)
        invariant galleryUrls == Started(files, main, 0).gallery && mainImage == main
      {
        TakeNext(w);
      }
      assert busy == Started(files, main, workers).busy;
    }

    /** The event loop: whichever upload settles next, its worker goes on, until all have stopped. */
    method RunToEnd() returns (ghost schedule: seq<nat>)
      requires Inv(files, View())
      modifies this
      ensures Possible(files, old(View()), schedule) && View() == Run(files, old(View()), schedule)
      ensures Idle(View())
    {
      schedule := [];
      ghost var start := View();
      while exists w :: 0 <= w < |busy| && busy[w].Some?
        invariant Inv(files, View())
        invariant Possible(files, start, schedule) && View() == Run(files, start, schedule)
        decreases Pending(files, View())
      {
        var w :| 0 <= w < |busy| && busy[w].Some?;
        SettleProgress(files, View(), w);
        assert [w][1..] == [];
        RunJoin(files, start, schedule, [w]);
        Resume(w);
        schedule := schedule + [w];
      }
    }
  }

  /**
    `applyUploadedProductFiles`. Which busy worker settles next is left open, so what is ensured
    holds under every interleaving.
  */
  method ApplyUploadedProductFiles(product: Product, files: seq<File>) returns (updated: Product, ghost schedule: seq<nat>)
    ensures files == [] ==> updated == product
    ensures files != [] ==>
              && updated.galleryImages == (if GalleryOf(files) != [] then GalleryOf(files) else product.galleryImages)
              && Complete(files, product.mainImage, schedule)
              && updated.mainImage == MainAfter(files, product.mainImage, schedule)
  {
    schedule := [];
    if files == [] {
      return product, schedule;
    }
    var pool := new Pool(files, product.mainImage);
    pool.StartWorkers(product.mainImage);
    StartedInv(files, product.mainImage);
    schedule := pool.RunToEnd();
    GalleryIsScheduleFree(files, pool.View());
    var uploaded := Truthy(pool.galleryUrls);
    updated := Product(pool.mainImage, if uploaded != [] then uploaded else product.galleryImages);
  }
}
