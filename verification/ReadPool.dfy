/** `readRuntimeSourceFiles`: workers that share one index counter. */
module ReadPool {
  import opened Common

  const FILE_READ_CONCURRENCY: nat := 24

  datatype File = File(relativePath: string, source: string)

  /** A worker between two awaits. */
  datatype Worker = Unstarted | Reading(index: nat) | Returned

  /** One iteration of a worker's loop that got an index below the number of paths. */
  datatype Claim = Claim(worker: nat, index: nat)

  /** The paths, what reading each of them returns (None when it fails), and `path.relative(repoRoot, _)`. */
  datatype Job = Job(paths: seq<string>, results: seq<Option<string>>, relative: string -> string) {
    predicate Valid() { |results| == |paths| }

    /** What belongs at position `i` of the output. */
    function Entry(i: nat): Option<File>
      requires Valid() && i < |paths|
    {
      if paths[i] == "" || results[i].None? then None
      else Some(File(relative(paths[i]), results[i].value))
    }
  }

  function Present(entries: seq<Option<File>>): seq<File> {
    if entries == [] then []
    else
      var last := entries[|entries| - 1];
      Present(entries[..|entries| - 1]) + if last.Some? then [last.value] else []
  }

  /** The files read one after the other, in the order of the paths. */
  function Sequential(job: Job, n: nat): seq<File>
    requires job.Valid() && n <= |job.paths|
  {
    if n == 0 then []
    else if job.paths[n - 1] == "" || job.results[n - 1].None? then Sequential(job, n - 1)
    else Sequential(job, n - 1) + [File(job.relative(job.paths[n - 1]), job.results[n - 1].value)]
  }

  ghost predicate Readable(job: Job, i: nat)
    requires job.Valid()
  {
    i < |job.paths| && job.paths[i] != "" && job.results[i].Some?
  }

  /** `read` lists the readable indices below `n`, in ascending order, and `files` holds what is read there. */
  ghost predicate ReadInOrder(job: Job, n: nat, read: seq<nat>, files: seq<File>)
    requires job.Valid()
  {
    && (forall j, k :: 0 <= j < k < |read| ==> read[j] < read[k])
    && (forall j :: 0 <= j < |read| ==> read[j] < n && Readable(job, read[j]))
    && (forall i :: 0 <= i < n && Readable(job, i) ==> i in read)
    && |files| == |read|
    && (forall j :: 0 <= j < |read| ==> files[j] == File(job.relative(job.paths[read[j]]), job.results[read[j]].value))
  }

  /** A sequential read gives one file for each path that is not empty and can be read, in the order of the paths. */
  lemma {:induction false} SequentialIs(job: Job, n: nat) returns (read: seq<nat>)
    requires job.Valid() && n <= |job.paths|
    ensures ReadInOrder(job, n, read, Sequential(job, n))
  {
    if n == 0 {
      read := [];
    } else {
      read := SequentialIs(job, n - 1);
      if Readable(job, n - 1) {
        ReadOneMore(job, n - 1, read, Sequential(job, n - 1));
        read := read + [n - 1];
      }
    }
  }

  lemma ReadOneMore(job: Job, n: nat, read: seq<nat>, files: seq<File>)
    requires job.Valid() && Readable(job, n) && ReadInOrder(job, n, read, files)
    ensures ReadInOrder(job, n + 1, read + [n], files + [File(job.relative(job.paths[n]), job.results[n].value)])
  {
    var more := read + [n];
    assert more[|read|] == n;
    forall i | 0 <= i < n && Readable(job, i) ensures i in more {
      assert i in read;
    }
  }

  /** One worker for a path, but at least one and at most 24. */
  function WorkerCount(n: nat): (r: nat)
    ensures 1 <= r <= 24 && (n <= 1 ==> r == 1) && (1 <= n <= 24 ==> r == n) && (n >= 24 ==> r == 24)
  {
    var wanted := if n > 1 then n else 1;
    if wanted < FILE_READ_CONCURRENCY then wanted else FILE_READ_CONCURRENCY
  }

  function Running(workers: seq<Worker>): nat {
    if workers == [] then 0
    else Running(workers[..|workers| - 1]) + if workers[|workers| - 1].Returned? then 0 else 1
  }

  /** Claims come in index order; a claimed position is filled unless its claimer is still reading it. */
  ghost predicate Coherent(job: Job, log: seq<Claim>, workers: seq<Worker>, output: seq<Option<File>>) {
    && job.Valid() && |output| == |job.paths| && |log| <= |output|
    && (forall i :: 0 <= i < |log| ==> log[i].index == i && log[i].worker < |workers|)
    && (forall w :: 0 <= w < |workers| && workers[w].Reading? ==>
          workers[w].index < |log| && log[workers[w].index].worker == w && job.paths[workers[w].index] != "")
    && (forall i :: 0 <= i < |log| ==> output[i] == if workers[log[i].worker] == Reading(i) then None else job.Entry(i))
    && (forall i :: |log| <= i < |output| ==> output[i] == None)
    && (forall w :: 0 <= w < |workers| && workers[w].Returned? ==> |log| == |output|)
  }

  /** A worker claims the next index: it skips an empty path and starts to read any other. */
  lemma ClaimNext(job: Job, log: seq<Claim>, workers: seq<Worker>, output: seq<Option<File>>, w: nat)
    requires Coherent(job, log, workers, output) && w < |workers| && workers[w].Unstarted? && |log| < |output|
    ensures var next := if job.paths[|log|] == "" then workers else workers[w := Reading(|log|)];
            Coherent(job, log + [Claim(w, |log|)], next, output)
  {
  }

  /** Behind the last claim a worker returns. */
  lemma ReturnNow(job: Job, log: seq<Claim>, workers: seq<Worker>, output: seq<Option<File>>, w: nat)
    requires Coherent(job, log, workers, output) && w < |workers| && workers[w].Unstarted? && |log| == |output|
    ensures Coherent(job, log, workers[w := Returned], output)
  {
  }

  /** The read of a worker completes. */
  lemma Complete(job: Job, log: seq<Claim>, workers: seq<Worker>, output: seq<Option<File>>, w: nat)
    requires Coherent(job, log, workers, output) && w < |workers| && workers[w].Reading?
    ensures workers[w].index < |output|
    ensures Coherent(job, log, workers[w := Unstarted], output[workers[w].index := job.Entry(workers[w].index)])
  {
  }

  class Pool {
    const job: Job
    const output: array<Option<File>>
    var nextIndex: nat
    var workers: seq<Worker>
    ghost var log: seq<Claim>

    ghost predicate Valid()
      reads this, output
    {
      Coherent(job, log, workers, output[..]) && |log| == if nextIndex < output.Length then nextIndex else output.Length
    }

    constructor (job: Job)
      requires job.Valid()
      ensures Valid() && this.job == job && fresh(output)
      ensures workers == seq(WorkerCount(|job.paths|), _ => Unstarted) && log == []
    {
      this.job := job;
      output := new Option<File>[|job.paths|](_ => None);
      nextIndex := 0;
      workers := seq(WorkerCount(|job.paths|), _ => Unstarted);
      log := [];
    }

    /** The claims of a worker up to its next read, or to its return. */
    method Claims(w: nat)
      requires Valid() && w < |workers| && workers[w].Unstarted?
      modifies this
      ensures Valid() && |workers| == old(|workers|)
      ensures workers == old(workers)[w := workers[w]] && !workers[w].Unstarted?
      ensures old(log) <= log
      ensures |log| == old(|log|) ==> workers[w].Returned?
    {
      while true
        invariant Valid() && workers == old(workers) && old(log) <= log
        decreases output.Length - |log|
      {
        var index := nextIndex;
        nextIndex := nextIndex + 1;
        if index >= output.Length {
          ReturnNow(job, log, workers, output[..], w);
          workers := workers[w := Returned];
          return;
        }
        ClaimNext(job, log, workers, output[..], w);
        log := log + [Claim(w, index)];
        if job.paths[index] == "" {
          continue;
        }
        workers := workers[w := Reading(index)];
        return;
      }
    }

    /** A worker runs from its start, or from the end of its read, up to its next await. */
    method Resume(w: nat)
      requires Valid() && w < |workers| && !workers[w].Returned?
      modifies this, output
      ensures Valid() && |workers| == old(|workers|)
      ensures workers == old(workers)[w := workers[w]] && !workers[w].Unstarted?
      ensures old(log) <= log
      ensures |log| == old(|log|) ==> workers[w].Returned?
    {
      if workers[w].Reading? {
        var index := workers[w].index;
        Complete(job, log, workers, output[..], w);
        ghost var filled := output[..][index := job.Entry(index)];
        if job.results[index].Some? {
          output[index] := Some(File(job.relative(job.paths[index]), job.results[index].value));
        }
        assert output[..] == filled;
        workers := workers[w := Unstarted];
      }
      Claims(w);
    }
  }

  lemma {:induction false} RunningFalls(workers: seq<Worker>, w: nat, v: Worker)
    requires w < |workers| && !workers[w].Returned?
    ensures Running(workers[w := v]) == Running(workers) - if v.Returned? then 1 else 0
  {
    var init := workers[..|workers| - 1];
    if w == |workers| - 1 {
      assert workers[w := v][..|workers| - 1] == init;
    } else {
      RunningFalls(init, w, v);
      assert workers[w := v][..|workers| - 1] == init[w := v];
    }
  }

  lemma {:induction false} NoneRunning(workers: seq<Worker>)
    ensures Running(workers) == 0 <==> forall w :: 0 <= w < |workers| ==> workers[w].Returned?
  {
    if workers != [] {
      NoneRunning(workers[..|workers| - 1]);
    }
  }

  lemma {:induction false} PresentIsSequential(job: Job, entries: seq<Option<File>>, n: nat)
    requires job.Valid() && n <= |job.paths| && |entries| == n
    requires forall i :: 0 <= i < n ==> entries[i] == job.Entry(i)
    ensures Present(entries) == Sequential(job, n)
  {
    if n > 0 {
      PresentIsSequential(job, entries[..n - 1], n - 1);
    }
  }

  /**
   * Every schedule of the workers and of the completions of their reads ends, claims each index exactly once
   * (claim `i` of the log is of index `i`) and yields the files of a sequential read, in order.
   */
  method ReadRuntimeSourceFiles(job: Job) returns (files: seq<File>, ghost log: seq<Claim>)
    requires job.Valid()
    ensures files == Sequential(job, |job.paths|)
    ensures |log| == |job.paths|
    ensures forall i :: 0 <= i < |log| ==> log[i].index == i && log[i].worker < WorkerCount(|job.paths|)
  {
    var pool := new Pool(job);
    NoneRunning(pool.workers);
    while exists w :: 0 <= w < |pool.workers| && !pool.workers[w].Returned?
      invariant pool.Valid() && pool.job == job && fresh(pool) && fresh(pool.output)
      invariant |pool.workers| == WorkerCount(|job.paths|)
      decreases pool.output.Length - |pool.log|, Running(pool.workers)
    {
      var w :| 0 <= w < |pool.workers| && !pool.workers[w].Returned?;
      ghost var before := pool.workers;
      pool.Resume(w);
      RunningFalls(before, w, pool.workers[w]);
    }
    assert pool.workers[0].Returned?;
    PresentIsSequential(job, pool.output[..], |job.paths|);
    files := Present(pool.output[..]);
    log := pool.log;
  }
}
