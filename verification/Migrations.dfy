/**
 The migration runner (`_apply_migrations` in `cli/init.py`): it executes the chunks of every file that is
 not recorded as applied, in file order, and records a file after its last chunk.  The process can
 die between any two effects, and is then simply started again.
 */
module Migrations {
  import opened PyText

  const MARKER := "-- @SPLIT@"

  datatype File = File(name: string, text: string)

  function Chunks(f: File): seq<string> {
    Split(f.text, MARKER)
  }

  /** The chunks that reach the database: stripped, blanks skipped. */
  function Effective(chunks: seq<string>): seq<string> {
    if chunks == [] then []
    else
      var last := Strip(chunks[|chunks| - 1]);
      Effective(chunks[..|chunks| - 1]) + (if last == "" then [] else [last])
  }

  function Sql(f: File): seq<string> {
    Effective(Chunks(f))
  }

  /** The database and its `schema_migrations` table. */
  datatype Db<S> = Db(state: S, recorded: set<string>)

  function Execute<S>(s: S, chunks: seq<string>, exec: (S, string) -> S): S
  {
    if chunks == [] then s else exec(Execute(s, chunks[..|chunks| - 1], exec), chunks[|chunks| - 1])
  }

  /** One run over files[from..] that dies after `k` effects: a chunk is an effect, and so is recording a file.
      `applied` is the table as it was read when the run began. */
  function RunFrom<S>(db: Db<S>, applied: set<string>, files: seq<File>, from: nat, exec: (S, string) -> S, k: nat): Db<S>
    requires from <= |files|
    decreases |files| - from
  {
    if from == |files| then db
    else if files[from].name in applied then RunFrom(db, applied, files, from + 1, exec, k)
    else
      var sql := Sql(files[from]);
      if k <= |sql| then db.(state := Execute(db.state, sql[..k], exec))
      else RunFrom(Db(Execute(db.state, sql, exec), db.recorded + {files[from].name}), applied, files, from + 1, exec, k - |sql| - 1)
  }

  function Run<S>(db: Db<S>, files: seq<File>, exec: (S, string) -> S, k: nat): Db<S> {
    RunFrom(db, db.recorded, files, 0, exec, k)
  }

  /** How many effects an undisturbed run has. */
  function EffectsFrom(applied: set<string>, files: seq<File>, from: nat): nat
    requires from <= |files|
    decreases |files| - from
  {
    if from == |files| then 0
    else (if files[from].name in applied then 0 else |Sql(files[from])| + 1) + EffectsFrom(applied, files, from + 1)
  }

  function Complete<S>(db: Db<S>, files: seq<File>, exec: (S, string) -> S): Db<S> {
    Run(db, files, exec, EffectsFrom(db.recorded, files, 0))
  }

  function Runs<S>(db: Db<S>, files: seq<File>, exec: (S, string) -> S, ks: seq<nat>): Db<S>
    decreases |ks|
  {
    if ks == [] then db else Runs(Run(db, files, exec, ks[0]), files, exec, ks[1..])
  }

  lemma EffectiveOfNone(chunks: seq<string>)
    ensures Effective(chunks[..0]) == []
  {
  }

  lemma EffectiveSnoc(chunks: seq<string>, c: nat)
    requires c < |chunks|
    ensures var sql := Strip(chunks[c]);
            Effective(chunks[..c + 1]) == Effective(chunks[..c]) + (if sql == "" then [] else [sql])
  {
    assert chunks[..c + 1][..c] == chunks[..c];
  }

  lemma {:induction false} EffectiveExtends(chunks: seq<string>, c: nat)
    requires c <= |chunks|
    ensures Effective(chunks[..c]) <= Effective(chunks)
    decreases |chunks| - c
  {
    if c == |chunks| {
      assert chunks[..c] == chunks;
    } else {
      EffectiveSnoc(chunks, c);
      hide Effective, Strip;
      EffectiveExtends(chunks, c + 1);
    }
  }

  class Database<S> {
    var state: S
    var recorded: set<string>

    constructor (state: S)
      ensures Value() == Db(state, {})
    {
      this.state := state;
      recorded := {};
    }

    ghost function Value(): Db<S>
      reads this
    {
      Db(state, recorded)
    }

    /** One unapplied file: all its chunks and its record, or as many chunks as the budget allows. */
    method ApplyFile(f: File, exec: (S, string) -> S, budget: nat) returns (alive: bool, left: nat)
      modifies this
      ensures alive <==> budget > |Sql(f)|
      ensures alive ==> left == budget - |Sql(f)| - 1
      ensures Value() == if alive then Db(Execute(old(state), Sql(f), exec), old(recorded) + {f.name})
                         else Db(Execute(old(state), Sql(f)[..budget], exec), old(recorded))
    {
      hide Strip, Effective, Chunks;
      var chunks := Chunks(f);
      assert Effective(chunks[..0]) == [] by { EffectiveOfNone(chunks); }
      left := budget;
      var c := 0;
      while c < |chunks|
        invariant 0 <= c <= |chunks|
        invariant state == Execute(old(state), Effective(chunks[..c]), exec) && recorded == old(recorded)
        invariant left + |Effective(chunks[..c])| == budget
      {
        var sql := Strip(chunks[c]);
        ghost var done := Effective(chunks[..c]);
        EffectiveSnoc(chunks, c);
        if sql != "" {
          if left == 0 {
            EffectiveExtends(chunks, c);
            EffectiveExtends(chunks, c + 1);
            assert Sql(f)[..budget] == done;
            return false, left;
          }
          assert (done + [sql])[..|done|] == done;
          state := exec(state, sql);
          left := left - 1;
        } else {
          assert done + [] == done;
        }
        c := c + 1;
      }
      assert chunks[..c] == chunks;
      if left == 0 {
        assert Sql(f)[..budget] == Sql(f);
        return false, left;
      }
      recorded := recorded + {f.name};
      return true, left - 1;
    }

    /** The runner, dying once it has used up its `budget` of effects. */
    method ApplyMigrations(files: seq<File>, exec: (S, string) -> S, budget: nat) returns (finished: bool)
      modifies this
      ensures Value() == Run(old(Value()), files, exec, budget)
      ensures finished <==> budget >= EffectsFrom(old(recorded), files, 0)
    {
      var applied, left, i := recorded, budget, 0;
      while i < |files|
        invariant 0 <= i <= |files| && 0 <= left
        invariant RunFrom(Value(), applied, files, i, exec, left) == Run(old(Value()), files, exec, budget)
        invariant left >= EffectsFrom(applied, files, i) <==> budget >= EffectsFrom(applied, files, 0)
      {
        if files[i].name !in applied {
          var alive;
          alive, left := ApplyFile(files[i], exec, left);
          if !alive {
            return false;
          }
        }
        i := i + 1;
      }
      finished := true;
    }
  }

  // ---------------------------------------------------------------------------------------
  // From the text of the files
  // ---------------------------------------------------------------------------------------

  lemma {:induction false} EffectiveCons(chunk: string, rest: seq<string>)
    ensures Effective([chunk] + rest) == (if Strip(chunk) == "" then [] else [Strip(chunk)]) + Effective(rest)
  {
    var all, first := [chunk] + rest, if Strip(chunk) == "" then [] else [Strip(chunk)];
    if rest == [] {
      assert all[..0] == [] && Effective(all[..0]) == [];
    } else {
      assert all[..|all| - 1] == [chunk] + rest[..|rest| - 1] && all[|all| - 1] == rest[|rest| - 1];
      hide Strip;
      EffectiveCons(chunk, rest[..|rest| - 1]);
    }
  }

  lemma FirstChunk(name: string, a: string, b: string)
    requires forall i: nat | i < |a| :: !OccursAt(a + "-- @SPLIT@" + b, "-- @SPLIT@", i)
    ensures Sql(File(name, a + "-- @SPLIT@" + b)) == (if Strip(a) == "" then [] else [Strip(a)]) + Sql(File(name, b))
  {
    hide Strip, Effective, OccursAt;
    SplitFirst(a, "-- @SPLIT@", b);
    EffectiveCons(a, Split(b, "-- @SPLIT@"));
  }

  lemma OnlyChunk(name: string, a: string)
    requires forall i: nat :: !OccursAt(a, "-- @SPLIT@", i)
    ensures Sql(File(name, a)) == if Strip(a) == "" then [] else [Strip(a)]
  {
    hide Strip, OccursAt;
    SplitWhole(a, "-- @SPLIT@");
    EffectiveCons(a, []);
    assert [a] + [] == [a];
  }

  function Sent<S>(s: S, sql: string, exec: (S, string) -> S): S {
    if sql == "" then s else exec(s, sql)
  }

  lemma {:induction false} ExecuteFirst<S>(s: S, first: string, rest: seq<string>, exec: (S, string) -> S)
    ensures Execute(s, [first] + rest, exec) == Execute(exec(s, first), rest, exec)
  {
    ExecuteConcat(s, [first], rest, exec);
    assert [first][..0] == [] && Execute(s, [], exec) == s;
    assert Execute(s, [first], exec) == exec(Execute(s, [first][..0], exec), first);
  }

  lemma CompleteOne<S>(db: Db<S>, f: File, exec: (S, string) -> S)
    requires f.name !in db.recorded
    ensures Complete(db, [f], exec) == Db(Execute(db.state, Sql(f), exec), db.recorded + {f.name})
  {
    EnoughBudget(db, db.recorded, [f], 0, exec, EffectsFrom(db.recorded, [f], 0));
  }

  /** The text before the first marker is executed first, stripped, and then the text after it as if it were the file. */
  lemma MarkerSplits<S>(db: Db<S>, name: string, a: string, b: string, exec: (S, string) -> S)
    requires name !in db.recorded && forall i: nat | i < |a| :: !OccursAt(a + "-- @SPLIT@" + b, "-- @SPLIT@", i)
    ensures Complete(db, [File(name, a + "-- @SPLIT@" + b)], exec)
         == Complete(db.(state := Sent(db.state, Strip(a), exec)), [File(name, b)], exec)
  {
    FirstChunk(name, a, b);
    hide Strip, Sql, OccursAt, Complete, Execute;
    CompleteOne(db, File(name, a + "-- @SPLIT@" + b), exec);
    CompleteOne(db.(state := Sent(db.state, Strip(a), exec)), File(name, b), exec);
    if Strip(a) != "" { ExecuteFirst(db.state, Strip(a), Sql(File(name, b)), exec); } else { assert [] + Sql(File(name, b)) == Sql(File(name, b)); }
  }

  /** A text without the marker is executed whole, unless it is blank. */
  lemma NoMarkerWhole<S>(db: Db<S>, name: string, a: string, exec: (S, string) -> S)
    requires name !in db.recorded && forall i: nat :: !OccursAt(a, "-- @SPLIT@", i)
    ensures Complete(db, [File(name, a)], exec) == Db(Sent(db.state, Strip(a), exec), db.recorded + {name})
  {
    OnlyChunk(name, a);
    CompleteOne(db, File(name, a), exec);
    hide Strip, Sql, OccursAt, Complete;
    if Strip(a) != "" {
      assert [Strip(a)] == [Strip(a)] + [];
      ExecuteFirst(db.state, Strip(a), [], exec);
    }
  }

  lemma {:induction false} FinishTail<S>(db: Db<S>, applied: set<string>, f: File, files: seq<File>, from: nat, exec: (S, string) -> S)
    requires from <= |files|
    ensures FinishFrom(db, applied, [f] + files, from + 1, exec) == FinishFrom(db, applied, files, from, exec)
    decreases |files| - from
  {
    if from < |files| {
      assert ([f] + files)[from + 1] == files[from];
      var next := if files[from].name in applied then db else Db(Execute(db.state, Sql(files[from]), exec), db.recorded + {files[from].name});
      FinishTail(next, applied, f, files, from + 1, exec);
    }
  }

  /** Files are applied one after the other, in the order of the list; one that is recorded is skipped. */
  lemma FileByFile<S>(db: Db<S>, f: File, rest: seq<File>, exec: (S, string) -> S)
    requires forall i | 0 <= i < |rest| :: rest[i].name != f.name
    ensures Complete(db, [f] + rest, exec) == if f.name in db.recorded then Complete(db, rest, exec) else Complete(Complete(db, [f], exec), rest, exec)
  {
    var all := [f] + rest;
    EnoughBudget(db, db.recorded, all, 0, exec, EffectsFrom(db.recorded, all, 0));
    hide Sql;
    if f.name in db.recorded {
      EnoughBudget(db, db.recorded, rest, 0, exec, EffectsFrom(db.recorded, rest, 0));
      FinishTail(db, db.recorded, f, rest, 0, exec);
    } else {
      CompleteOne(db, f, exec);
      var one := Complete(db, [f], exec);
      EnoughBudget(one, one.recorded, rest, 0, exec, EffectsFrom(one.recorded, rest, 0));
      FinishTail(one, db.recorded, f, rest, 0, exec);
      FinishAgrees(one, db.recorded, one.recorded, rest, 0, exec);
    }
  }

  // ---------------------------------------------------------------------------------------
  // Every crash point
  // ---------------------------------------------------------------------------------------

  ghost predicate DistinctNames(files: seq<File>) {
    forall i, j :: 0 <= i < j < |files| ==> files[i].name != files[j].name
  }

  function Names(files: seq<File>, n: nat): set<string>
    requires n <= |files|
  {
    set i | 0 <= i < n :: files[i].name
  }

  /** Running with this instance keeps the list of executed chunks. */
  function Logged(trace: seq<string>, chunk: string): seq<string> {
    trace + [chunk]
  }

  /** The first `n` files each appear in the trace as one block, all chunks in order, one file after the other. */
  ghost predicate Covers(trace: seq<string>, files: seq<File>, n: nat)
    requires n <= |files|
    decreases n
  {
    n == 0 ||
    exists b: nat | b <= |trace| ::
      Covers(trace[..b], files, n - 1) && Sql(files[n - 1]) <= trace[b..]
  }

  lemma {:induction false} CoversLonger(trace: seq<string>, more: seq<string>, files: seq<File>, n: nat)
    requires n <= |files| && Covers(trace, files, n)
    ensures Covers(trace + more, files, n)
  {
    if n > 0 {
      var b: nat :| b <= |trace| && Covers(trace[..b], files, n - 1) && Sql(files[n - 1]) <= trace[b..];
      assert (trace + more)[..b] == trace[..b] && (trace + more)[b..] == trace[b..] + more;
    }
  }

  lemma {:induction false} ExecuteLogged(trace: seq<string>, chunks: seq<string>)
    ensures Execute(trace, chunks, Logged) == trace + chunks
  {
    if chunks != [] {
      ExecuteLogged(trace, chunks[..|chunks| - 1]);
    }
  }

  /** Executing the trace is what the runs did to any database. */
  lemma {:induction false} ExecuteConcat<S>(s: S, a: seq<string>, b: seq<string>, exec: (S, string) -> S)
    ensures Execute(s, a + b, exec) == Execute(Execute(s, a, exec), b, exec)
  {
    if b == [] {
      assert a + b == a;
    } else {
      assert (a + b)[..|a + b| - 1] == a + b[..|b| - 1];
      ExecuteConcat(s, a, b[..|b| - 1], exec);
    }
  }

  /** `db` is what the chunks in `logged` make of `s0`, with the same table. */
  ghost predicate Follows<S>(db: Db<S>, logged: Db<seq<string>>, s0: S, exec: (S, string) -> S) {
    db.state == Execute(s0, logged.state, exec) && db.recorded == logged.recorded
  }

  lemma {:induction false} RunFollows<S>(db: Db<S>, logged: Db<seq<string>>, s0: S, applied: set<string>, files: seq<File>, from: nat,
                                          exec: (S, string) -> S, k: nat)
    requires from <= |files| && Follows(db, logged, s0, exec)
    ensures Follows(RunFrom(db, applied, files, from, exec, k), RunFrom(logged, applied, files, from, Logged, k), s0, exec)
    decreases |files| - from
  {
    if from < |files| {
      var f, sql := files[from], Sql(files[from]);
      if f.name in applied {
        RunFollows(db, logged, s0, applied, files, from + 1, exec, k);
      } else {
        var part := if k <= |sql| then sql[..k] else sql;
        ExecuteLogged(logged.state, part);
        ExecuteConcat(s0, logged.state, part, exec);
        if k > |sql| {
          RunFollows(Db(Execute(db.state, sql, exec), db.recorded + {f.name}),
                     Db(Execute(logged.state, sql, Logged), logged.recorded + {f.name}), s0, applied, files, from + 1, exec, k - |sql| - 1);
        }
      }
    }
  }

  lemma {:induction false} RunCovers(db: Db<seq<string>>, files: seq<File>, n: nat, from: nat, k: nat) returns (m: nat)
    requires DistinctNames(files) && n <= from <= |files|
    requires db.recorded == Names(files, from) && Covers(db.state, files, from)
    ensures m <= |files|
    ensures var after := RunFrom(db, Names(files, n), files, from, Logged, k);
            after.recorded == Names(files, m) && Covers(after.state, files, m)
    decreases |files| - from
  {
    hide Sql;
    m := from;
    if from < |files| {
      var sql := Sql(files[from]);
      if k <= |sql| {
        ExecuteLogged(db.state, sql[..k]);
        CoversLonger(db.state, sql[..k], files, from);
      } else {
        ExecuteLogged(db.state, sql);
        var trace := db.state + sql;
        assert trace[..|db.state|] == db.state && trace[|db.state|..] == sql;
        assert db.recorded + {files[from].name} == Names(files, from + 1);
        m := RunCovers(Db(trace, Names(files, from + 1)), files, n, from + 1, k - |sql| - 1);
      }
    }
  }

  lemma {:induction false} RunsCover<S>(db: Db<S>, logged: Db<seq<string>>, s0: S, files: seq<File>, n: nat, exec: (S, string) -> S, ks: seq<nat>)
    returns (m: nat, trace: seq<string>)
    requires DistinctNames(files) && n <= |files| && Follows(db, logged, s0, exec)
    requires logged.recorded == Names(files, n) && Covers(logged.state, files, n)
    ensures m <= |files| && Covers(trace, files, m)
    ensures Runs(db, files, exec, ks) == Db(Execute(s0, trace, exec), Names(files, m))
    decreases |ks|
  {
    if ks == [] {
      m, trace := n, logged.state;
    } else {
      RunFollows(db, logged, s0, db.recorded, files, 0, exec, ks[0]);
      RunSkips(logged, Names(files, n), files, 0, n, Logged, ks[0]);
      var next := RunCovers(logged, files, n, n, ks[0]);
      m, trace := RunsCover(Run(db, files, exec, ks[0]), Run(logged, files, Logged, ks[0]), s0, files, next, exec, ks[1..]);
    }
  }

  /** However often the runner dies, and wherever, starting from an empty table: the recorded files are a prefix of
      the sorted list, and each of them has had all its chunks executed, in order and in one go, file after file. */
  lemma CrashPoints<S>(s0: S, files: seq<File>, exec: (S, string) -> S, ks: seq<nat>) returns (n: nat, trace: seq<string>)
    requires DistinctNames(files)
    ensures n <= |files| && Covers(trace, files, n)
    ensures Runs(Db(s0, {}), files, exec, ks) == Db(Execute(s0, trace, exec), Names(files, n))
  {
    assert Names(files, 0) == {};
    n, trace := RunsCover(Db(s0, {}), Db([], {}), s0, files, 0, exec, ks);
  }

  // ---------------------------------------------------------------------------------------
  // Starting again
  // ---------------------------------------------------------------------------------------

  /** Repeating a file after a partial execution of it ends where executing it once does. */
  ghost predicate ReplayHarmless<S(!new)>(files: seq<File>, exec: (S, string) -> S) {
    forall f: File, k: nat, s: S | f in files && k <= |Sql(f)| ::
      Execute(Execute(s, Sql(f)[..k], exec), Sql(f), exec) == Execute(s, Sql(f), exec)
  }

  /** An undisturbed run over files[from..]. */
  function FinishFrom<S>(db: Db<S>, applied: set<string>, files: seq<File>, from: nat, exec: (S, string) -> S): Db<S>
    requires from <= |files|
    decreases |files| - from
  {
    if from == |files| then db
    else if files[from].name in applied then FinishFrom(db, applied, files, from + 1, exec)
    else FinishFrom(Db(Execute(db.state, Sql(files[from]), exec), db.recorded + {files[from].name}), applied, files, from + 1, exec)
  }

  lemma {:induction false} EnoughBudget<S>(db: Db<S>, applied: set<string>, files: seq<File>, from: nat, exec: (S, string) -> S, k: nat)
    requires from <= |files| && k >= EffectsFrom(applied, files, from)
    ensures RunFrom(db, applied, files, from, exec, k) == FinishFrom(db, applied, files, from, exec)
    decreases |files| - from
  {
    if from < |files| {
      if files[from].name in applied {
        EnoughBudget(db, applied, files, from + 1, exec, k);
      } else {
        var sql := Sql(files[from]);
        EnoughBudget(Db(Execute(db.state, sql, exec), db.recorded + {files[from].name}), applied, files, from + 1, exec, k - |sql| - 1);
      }
    }
  }

  /** Only which of the remaining files are applied matters. */
  lemma {:induction false} FinishAgrees<S>(db: Db<S>, a: set<string>, b: set<string>, files: seq<File>, from: nat, exec: (S, string) -> S)
    requires from <= |files| && forall j :: from <= j < |files| ==> (files[j].name in a <==> files[j].name in b)
    ensures FinishFrom(db, a, files, from, exec) == FinishFrom(db, b, files, from, exec)
    decreases |files| - from
  {
    if from < |files| {
      var sql := Sql(files[from]);
      if files[from].name in a {
        FinishAgrees(db, a, b, files, from + 1, exec);
      } else {
        FinishAgrees(Db(Execute(db.state, sql, exec), db.recorded + {files[from].name}), a, b, files, from + 1, exec);
      }
    }
  }

  lemma {:induction false} FinishSkips<S>(db: Db<S>, applied: set<string>, files: seq<File>, from: nat, end: nat, exec: (S, string) -> S)
    requires from <= end <= |files| && forall j :: from <= j < end ==> files[j].name in applied
    ensures FinishFrom(db, applied, files, from, exec) == FinishFrom(db, applied, files, end, exec)
    decreases end - from
  {
    if from < end { FinishSkips(db, applied, files, from + 1, end, exec); }
  }

  /** In the middle of a run: everything before `from` is recorded, nothing after it changed. */
  ghost predicate UpTo<S>(db: Db<S>, applied: set<string>, files: seq<File>, from: nat)
    requires from <= |files|
  {
    && (forall j :: 0 <= j < from ==> files[j].name in db.recorded)
    && (forall j :: from <= j < |files| ==> (files[j].name in db.recorded <==> files[j].name in applied))
  }

  lemma {:induction false} OneInterruption<S(!new)>(db: Db<S>, applied: set<string>, files: seq<File>, from: nat, exec: (S, string) -> S, k: nat)
    requires DistinctNames(files) && ReplayHarmless(files, exec) && from <= |files| && UpTo(db, applied, files, from)
    ensures var died := RunFrom(db, applied, files, from, exec, k);
            FinishFrom(died, died.recorded, files, 0, exec) == FinishFrom(db, applied, files, from, exec)
    decreases |files| - from
  {
    if from == |files| {
      FinishSkips(db, db.recorded, files, 0, from, exec);
    } else if files[from].name in applied {
      OneInterruption(db, applied, files, from + 1, exec, k);
    } else {
      var f, sql := files[from], Sql(files[from]);
      var next := Db(Execute(db.state, sql, exec), db.recorded + {f.name});
      if k <= |sql| {
        var died := db.(state := Execute(db.state, sql[..k], exec));
        FinishSkips(died, died.recorded, files, 0, from, exec);
        assert Execute(died.state, sql, exec) == next.state;
        FinishAgrees(next, died.recorded, applied, files, from + 1, exec);
      } else {
        OneInterruption(next, applied, files, from + 1, exec, k - |sql| - 1);
      }
    }
  }

  lemma InterruptedThenComplete<S(!new)>(db: Db<S>, files: seq<File>, exec: (S, string) -> S, k: nat)
    requires DistinctNames(files) && ReplayHarmless(files, exec)
    ensures Complete(Run(db, files, exec, k), files, exec) == Complete(db, files, exec)
  {
    var died := Run(db, files, exec, k);
    OneInterruption(db, db.recorded, files, 0, exec, k);
    EnoughBudget(db, db.recorded, files, 0, exec, EffectsFrom(db.recorded, files, 0));
    EnoughBudget(died, died.recorded, files, 0, exec, EffectsFrom(died.recorded, files, 0));
  }

  /** Any number of interrupted runs followed by a complete one ends where a single complete run does. */
  lemma {:induction false} RestartsConverge<S(!new)>(db: Db<S>, files: seq<File>, exec: (S, string) -> S, ks: seq<nat>)
    requires DistinctNames(files) && ReplayHarmless(files, exec)
    ensures Complete(Runs(db, files, exec, ks), files, exec) == Complete(db, files, exec)
    decreases |ks|
  {
    if ks != [] {
      InterruptedThenComplete(db, files, exec, ks[0]);
      RestartsConverge(Run(db, files, exec, ks[0]), files, exec, ks[1..]);
    }
  }

  ghost predicate Converges<S>(db: Db<S>, files: seq<File>, exec: (S, string) -> S, ks: seq<nat>) {
    Complete(Runs(db, files, exec, ks), files, exec) == Complete(db, files, exec)
  }

  /** Harmless replay is also necessary: without it some interrupted run changes the outcome. */
  lemma RestartsConvergeIff<S(!new)>(files: seq<File>, exec: (S, string) -> S)
    requires DistinctNames(files)
    ensures ReplayHarmless(files, exec) <==> forall db: Db<S>, ks: seq<nat> :: Converges(db, files, exec, ks)
  {
    if ReplayHarmless(files, exec) {
      forall db: Db<S>, ks: seq<nat> ensures Converges(db, files, exec, ks) { RestartsConverge(db, files, exec, ks); }
    }
    if forall db: Db<S>, ks: seq<nat> :: Converges(db, files, exec, ks) {
      forall f: File, k: nat, s: S | f in files && k <= |Sql(f)|
        ensures Execute(Execute(s, Sql(f)[..k], exec), Sql(f), exec) == Execute(s, Sql(f), exec)
      {
        var i :| 0 <= i < |files| && files[i] == f;
        var db := Db(s, (set j | 0 <= j < |files| :: files[j].name) - {f.name});
        OnlyOneLeft(db, files, i, exec, k);
        var died := Run(db, files, exec, k);
        OnlyOneLeft(died, files, i, exec, k);
        assert Runs(db, files, exec, [k]) == died;
        assert Converges(db, files, exec, [k]);
      }
    }
  }

  lemma OnlyOneLeft<S>(db: Db<S>, files: seq<File>, i: nat, exec: (S, string) -> S, k: nat)
    requires DistinctNames(files) && i < |files| && k <= |Sql(files[i])|
    requires forall j :: 0 <= j < |files| ==> (files[j].name in db.recorded <==> j != i)
    ensures Run(db, files, exec, k) == db.(state := Execute(db.state, Sql(files[i])[..k], exec))
    ensures Complete(db, files, exec).state == Execute(db.state, Sql(files[i]), exec)
  {
    RunSkips(db, db.recorded, files, 0, i, exec, k);
    EnoughBudget(db, db.recorded, files, 0, exec, EffectsFrom(db.recorded, files, 0));
    FinishSkips(db, db.recorded, files, 0, i, exec);
    FinishSkips(Db(Execute(db.state, Sql(files[i]), exec), db.recorded + {files[i].name}), db.recorded, files, i + 1, |files|, exec);
  }

  lemma {:induction false} RunSkips<S>(db: Db<S>, applied: set<string>, files: seq<File>, from: nat, end: nat, exec: (S, string) -> S, k: nat)
    requires from <= end <= |files| && forall j :: from <= j < end ==> files[j].name in applied
    ensures RunFrom(db, applied, files, from, exec, k) == RunFrom(db, applied, files, end, exec, k)
    decreases end - from
  {
    if from < end { RunSkips(db, applied, files, from + 1, end, exec, k); }
  }

  lemma {:induction false} FinishRecordsAll<S>(db: Db<S>, applied: set<string>, files: seq<File>, from: nat, exec: (S, string) -> S)
    requires from <= |files| && applied <= db.recorded
    ensures db.recorded <= FinishFrom(db, applied, files, from, exec).recorded
    ensures forall j :: from <= j < |files| ==> files[j].name in FinishFrom(db, applied, files, from, exec).recorded
    decreases |files| - from
  {
    if from < |files| {
      var sql := Sql(files[from]);
      if files[from].name in applied {
        FinishRecordsAll(db, applied, files, from + 1, exec);
      } else {
        FinishRecordsAll(Db(Execute(db.state, sql, exec), db.recorded + {files[from].name}), applied, files, from + 1, exec);
      }
    }
  }

  /** After a complete run every file is recorded, and a further run executes and records nothing. */
  lemma NothingLeftToDo<S>(db: Db<S>, files: seq<File>, exec: (S, string) -> S, k: nat)
    ensures forall j :: 0 <= j < |files| ==> files[j].name in Complete(db, files, exec).recorded
    ensures Run(Complete(db, files, exec), files, exec, k) == Complete(db, files, exec)
  {
    var done := Complete(db, files, exec);
    EnoughBudget(db, db.recorded, files, 0, exec, EffectsFrom(db.recorded, files, 0));
    FinishRecordsAll(db, db.recorded, files, 0, exec);
    RunSkips(done, done.recorded, files, 0, |files|, exec, k);
  }
}
