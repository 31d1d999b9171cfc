/** The resumable loader of flat CSV files: rows are appended one by one and a
    checkpoint per file is saved every 5000 rows and at the end. The process may
    die before any append or save; the next run starts from the saved file. */
module FlatLoaders {
  import opened Wrappers

  /** The cells of one CSV row. */
  type Row = seq<string>

  /** A dataset folder: whether its name has a known layout, and the rows of its
      first CSV file, if there is one. */
  datatype Folder = Folder(base: string, known: bool, csv: Option<seq<Row>>)

  /** What one append writes: row number `n` of the file of `base`. */
  datatype Entry = Entry(base: string, n: nat, row: Row)

  const EVERY: nat := 5000

  /** What outlives the process: the event log and the checkpoint file. */
  datatype World = World(log: seq<Entry>, disk: map<string, nat>)

  function NonEmpty(rows: seq<Row>): seq<Row> {
    if rows == [] then []
    else NonEmpty(rows[..|rows| - 1]) + if rows[|rows| - 1] != [] then [rows[|rows| - 1]] else []
  }

  /** The rows a load goes through, or none when it returns at once. */
  function Data(f: Folder): Option<seq<Row>> {
    if !f.known || f.csv.None? || f.csv.value == [] then None else Some(NonEmpty(f.csv.value[1..]))
  }

  function Saved(disk: map<string, nat>, base: string): nat {
    if base in disk then disk[base] else 0
  }

  /** The appends of rows `from + 1` to `upto`. */
  function Entries(base: string, rows: seq<Row>, from: nat, upto: nat): seq<Entry>
    requires upto <= |rows|
  {
    if upto <= from then [] else Entries(base, rows, from, upto - 1) + [Entry(base, upto, rows[upto - 1])]
  }

  // ---- one load ------------------------------------------------------------

  /** The checkpoint file is as it was, or holds a multiple of 5000 passed since. */
  ghost predicate SavedAs(before: map<string, nat>, after: map<string, nat>, base: string, upto: nat, saved: nat) {
    if after == before then saved == Saved(before, base)
    else Saved(before, base) < saved <= upto && saved % EVERY == 0 && after == before[base := saved]
  }

  /** A load that got as far as row `upto`, with `saved` in the checkpoint file. */
  ghost predicate LoadedTo(before: World, after: World, base: string, rows: seq<Row>, crashed: bool, upto: nat,
                           saved: nat) {
    && upto <= |rows| && after.log == before.log + Entries(base, rows, Saved(before.disk, base), upto)
    && if crashed then
         && upto <= saved + EVERY
         && SavedAs(before.disk, after.disk, base, upto, saved)
       else
         upto == saved == |rows| && after.disk == before.disk[base := |rows|]
  }

  ghost predicate Loaded(before: World, after: World, f: Folder, crashed: bool) {
    match Data(f)
    case None => after == before && !crashed
    case Some(rows) => exists upto, saved :: LoadedTo(before, after, f.base, rows, crashed, upto, saved)
  }

  /** A run over the folders; a crash ends it. */
  ghost predicate RunLeaves(before: World, after: World, folders: seq<Folder>, crashed: bool)
    decreases |folders|
  {
    if folders == [] then after == before && !crashed
    else
      exists mid, died :: Loaded(before, mid, folders[0], died)
        && if died then crashed && after == mid else RunLeaves(mid, after, folders[1..], crashed)
  }

  lemma {:induction false} NonEmptyPrefix(rows: seq<Row>, k: nat)
    requires k <= |rows|
    ensures NonEmpty(rows[..k]) <= NonEmpty(rows)
  {
    if k < |rows| {
      NonEmptyPrefix(rows[..|rows| - 1], k);
      assert rows[..|rows| - 1][..k] == rows[..k];
    } else {
      assert rows[..k] == rows;
    }
  }

  // ---- what the process does, action by action ------------------------------

  /** One append, or one replacement of the checkpoint file; both are atomic. */
  datatype Act = Append(entry: Entry) | Save(base: string, n: nat)

  /** The process: what outlives it, how many more actions it performs before it
      dies, and whether it still lives. */
  datatype Process = Process(world: World, energy: nat, alive: bool)

  function Do(w: World, a: Act): World {
    match a
    case Append(entry) => w.(log := w.log + [entry])
    case Save(base, n) => w.(disk := w.disk[base := n])
  }

  /** The process tries the actions in turn; it dies at the first one it has no energy for. */
  function Perform(p: Process, acts: seq<Act>): Process {
    if acts == [] then p
    else
      var q := Perform(p, acts[..|acts| - 1]);
      if !q.alive then q
      else if q.energy == 0 then q.(alive := false)
      else Process(Do(q.world, acts[|acts| - 1]), q.energy - 1, true)
  }

  /** A row after the checkpoint is appended, and saved at every 5000th. */
  function RowActs(e: Entry): seq<Act> {
    [Append(e)] + if e.n % EVERY == 0 then [Save(e.base, e.n)] else []
  }

  /** What the row loop does for rows 1 to `n`, the first `done` being skipped. */
  function ActsTo(base: string, rows: seq<Row>, done: nat, n: nat): seq<Act>
    requires n <= |rows|
  {
    if n == 0 then []
    else ActsTo(base, rows, done, n - 1) + if n <= done then [] else RowActs(Entry(base, n, rows[n - 1]))
  }

  /** What a load sets out to do, given the checkpoint. */
  function Plan(f: Folder, done: nat): seq<Act> {
    match Data(f)
    case None => []
    case Some(rows) => ActsTo(f.base, rows, done, |rows|) + [Save(f.base, |rows|)]
  }

  function Load(p: Process, f: Folder): Process {
    Perform(p, Plan(f, Saved(p.world.disk, f.base)))
  }

  /** A run: folder by folder, from the checkpoint file, while the process lives. */
  function RunOf(p: Process, folders: seq<Folder>): Process
    decreases |folders|
  {
    if folders == [] || !p.alive then p else RunOf(Load(p, folders[0]), folders[1..])
  }

  lemma {:induction false} PerformConcat(p: Process, a: seq<Act>, b: seq<Act>)
    ensures Perform(p, a + b) == Perform(Perform(p, a), b)
  {
    if b == [] {
      assert a + b == a;
    } else {
      PerformConcat(p, a, b[..|b| - 1]);
      assert (a + b)[..|a + b| - 1] == a + b[..|b| - 1];
    }
  }

  lemma {:induction false} DeadDoesNothing(p: Process, acts: seq<Act>)
    requires !p.alive
    ensures Perform(p, acts) == p
  {
    if acts != [] {
      DeadDoesNothing(p, acts[..|acts| - 1]);
    }
  }

  /** Dying on the way settles the whole plan. */
  lemma DeadOnTheWay(p: Process, a: seq<Act>, b: seq<Act>)
    requires a <= b && !Perform(p, a).alive
    ensures Perform(p, b) == Perform(p, a)
  {
    assert b == a + b[|a|..];
    PerformConcat(p, a, b[|a|..]);
    DeadDoesNothing(Perform(p, a), b[|a|..]);
  }

  lemma {:induction false} ActsPrefix(base: string, rows: seq<Row>, done: nat, n: nat, m: nat)
    requires n <= m <= |rows|
    ensures ActsTo(base, rows, done, n) <= ActsTo(base, rows, done, m)
  {
    if n < m {
      ActsPrefix(base, rows, done, n, m - 1);
    }
  }

  lemma NextActs(p: Process, base: string, rows: seq<Row>, done: nat, n: nat)
    requires n < |rows|
    ensures Perform(p, ActsTo(base, rows, done, n + 1)) ==
            if n < done then Perform(p, ActsTo(base, rows, done, n))
            else Perform(Perform(p, ActsTo(base, rows, done, n)), RowActs(Entry(base, n + 1, rows[n])))
  {
    var acts := ActsTo(base, rows, done, n);
    if n < done {
      assert acts + [] == acts;
    } else {
      PerformConcat(p, acts, RowActs(Entry(base, n + 1, rows[n])));
    }
  }

  lemma PerformOne(p: Process, a: Act)
    ensures Perform(p, [a]) ==
            if !p.alive then p
            else if p.energy == 0 then p.(alive := false)
            else Process(Do(p.world, a), p.energy - 1, true)
  {
    assert [a][..0] == [];
  }

  // ---- where a load can end -------------------------------------------------

  /** A process that lives after row `n` has appended everything up to it and
      saved the last multiple of 5000 passed; a dead one left a crashed load. */
  ghost predicate Through(before: World, p: Process, base: string, rows: seq<Row>, n: nat)
    requires n <= |rows|
  {
    if p.alive then exists saved :: PassedRow(before, p.world, base, rows, n, saved)
    else exists upto, saved :: LoadedTo(before, p.world, base, rows, true, upto, saved)
  }

  ghost predicate PassedRow(before: World, now: World, base: string, rows: seq<Row>, n: nat, saved: nat)
    requires n <= |rows|
  {
    && now.log == before.log + Entries(base, rows, Saved(before.disk, base), n)
    && n / EVERY * EVERY <= saved && SavedAs(before.disk, now.disk, base, n, saved)
  }

  lemma {:induction false} GetsThrough(p: Process, base: string, rows: seq<Row>, n: nat)
    requires p.alive && n <= |rows|
    ensures Through(p.world, Perform(p, ActsTo(base, rows, Saved(p.world.disk, base), n)), base, rows, n)
  {
    var done := Saved(p.world.disk, base);
    if n == 0 {
      assert p.world.log + [] == p.world.log;
      assert PassedRow(p.world, p.world, base, rows, 0, done);
    } else {
      GetsThrough(p, base, rows, n - 1);
      NextActs(p, base, rows, done, n - 1);
      var q := Perform(p, ActsTo(base, rows, done, n - 1));
      if q.alive {
        var saved :| PassedRow(p.world, q.world, base, rows, n - 1, saved);
        RowGetsThrough(p.world, q, base, rows, n, saved);
      } else if n > done {
        DeadDoesNothing(q, RowActs(Entry(base, n, rows[n - 1])));
      }
    }
  }

  lemma RowGetsThrough(before: World, q: Process, base: string, rows: seq<Row>, n: nat, saved: nat)
    requires q.alive && 1 <= n <= |rows| && PassedRow(before, q.world, base, rows, n - 1, saved)
    ensures n <= Saved(before.disk, base) ==> Through(before, q, base, rows, n)
    ensures n > Saved(before.disk, base) ==>
              Through(before, Perform(q, RowActs(Entry(base, n, rows[n - 1]))), base, rows, n)
  {
    var e := Entry(base, n, rows[n - 1]);
    if n <= Saved(before.disk, base) {
      assert PassedRow(before, q.world, base, rows, n, saved);
    } else {
      PerformOne(q, Append(e));
      if q.energy == 0 {
        assert LoadedTo(before, q.world, base, rows, true, n - 1, saved);
        DeadOnTheWay(q, [Append(e)], RowActs(e));
      } else {
        AppendedRow(before, q.world, base, rows, n, saved);
        SavesRow(before, Perform(q, [Append(e)]), base, rows, n, saved);
        PerformConcat(q, [Append(e)], RowActs(e)[1..]);
        assert RowActs(e) == [Append(e)] + RowActs(e)[1..];
      }
    }
  }

  lemma AppendedRow(before: World, now: World, base: string, rows: seq<Row>, n: nat, saved: nat)
    requires 1 <= n <= |rows| && PassedRow(before, now, base, rows, n - 1, saved) && n > Saved(before.disk, base)
    ensures var w := Do(now, Append(Entry(base, n, rows[n - 1])));
            LoadedTo(before, w, base, rows, true, n, saved) && w.disk == now.disk
    ensures n % EVERY != 0 ==> PassedRow(before, Do(now, Append(Entry(base, n, rows[n - 1]))), base, rows, n, saved)
  {
    var done := Saved(before.disk, base);
    assert now.log + [Entry(base, n, rows[n - 1])] == before.log + Entries(base, rows, done, n);
  }

  /** The save at a multiple of 5000, after the append of row `n`. */
  lemma SavesRow(before: World, q: Process, base: string, rows: seq<Row>, n: nat, saved: nat)
    requires q.alive && 1 <= n <= |rows| && n > Saved(before.disk, base)
    requires LoadedTo(before, q.world, base, rows, true, n, saved)
    requires n % EVERY != 0 ==> PassedRow(before, q.world, base, rows, n, saved)
    ensures Through(before, Perform(q, RowActs(Entry(base, n, rows[n - 1]))[1..]), base, rows, n)
  {
    var rest := RowActs(Entry(base, n, rows[n - 1]))[1..];
    if n % EVERY == 0 {
      assert rest == [Save(base, n)];
      PerformOne(q, Save(base, n));
      if q.energy > 0 {
        SavedTwice(before.disk, q.world.disk, base, n, saved);
        assert PassedRow(before, Do(q.world, Save(base, n)), base, rows, n, n);
      }
    } else {
      assert rest == [];
    }
  }

  lemma SavedTwice(before: map<string, nat>, now: map<string, nat>, base: string, n: nat, saved: nat)
    requires SavedAs(before, now, base, n, saved)
    ensures now[base := n] == before[base := n]
  {}

  /** However far a load gets, it leaves one of the states of `Loaded`. */
  lemma LoadIsLoaded(p: Process, f: Folder)
    requires p.alive
    ensures Loaded(p.world, Load(p, f).world, f, !Load(p, f).alive)
  {
    if Data(f).Some? {
      var rows, done := Data(f).value, Saved(p.world.disk, f.base);
      var acts := ActsTo(f.base, rows, done, |rows|);
      GetsThrough(p, f.base, rows, |rows|);
      LastAct(p, f);
      LastSave(p.world, Perform(p, acts), f, rows);
    }
  }

  lemma LastSave(before: World, q: Process, f: Folder, rows: seq<Row>)
    requires Data(f) == Some(rows) && Through(before, q, f.base, rows, |rows|)
    ensures var p := Perform(q, [Save(f.base, |rows|)]); Loaded(before, p.world, f, !p.alive)
  {
    PerformOne(q, Save(f.base, |rows|));
    if q.alive {
      var saved :| PassedRow(before, q.world, f.base, rows, |rows|, saved);
      if q.energy > 0 {
        SavedTwice(before.disk, q.world.disk, f.base, |rows|, saved);
        assert LoadedTo(before, Do(q.world, Save(f.base, |rows|)), f.base, rows, false, |rows|, |rows|);
      } else {
        assert LoadedTo(before, q.world, f.base, rows, true, |rows|, saved);
      }
    }
  }

  /** So every run the process makes is one the results below speak of. */
  lemma {:induction false} RunIsRun(p: Process, folders: seq<Folder>)
    requires p.alive
    ensures RunLeaves(p.world, RunOf(p, folders).world, folders, !RunOf(p, folders).alive)
    decreases |folders|
  {
    if folders != [] {
      var q := Load(p, folders[0]);
      LoadIsLoaded(p, folders[0]);
      if q.alive {
        RunIsRun(q, folders[1..]);
      } else {
        assert RunOf(q, folders[1..]) == q;
      }
    }
  }

  /** The process after the first `i` lines of the file, `n` of them nonempty. */
  ghost predicate At(p: Process, start: Process, base: string, data: seq<Row>, done: nat, i: nat, n: nat)
    requires i <= |data|
  {
    && n == |NonEmpty(data[..i])| <= |NonEmpty(data)|
    && p == Perform(start, ActsTo(base, NonEmpty(data), done, n))
  }

  lemma NextRow(data: seq<Row>, i: nat)
    requires i < |data|
    ensures NonEmpty(data[..i + 1]) == NonEmpty(data[..i]) + if data[i] != [] then [data[i]] else []
    ensures NonEmpty(data[..i + 1]) <= NonEmpty(data)
  {
    assert data[..i + 1][..i] == data[..i];
    NonEmptyPrefix(data, i + 1);
  }

  lemma FirstLine(start: Process, base: string, data: seq<Row>, done: nat)
    ensures At(start, start, base, data, done, 0, 0)
  {
    assert data[..0] == [];
  }

  lemma NextLine(p: Process, start: Process, base: string, data: seq<Row>, done: nat, i: nat, n: nat)
    requires i < |data| && At(p, start, base, data, done, i, n)
    ensures data[i] == [] ==> At(p, start, base, data, done, i + 1, n)
    ensures data[i] != [] ==>
              var q := if n < done then p else Perform(p, RowActs(Entry(base, n + 1, data[i])));
              At(q, start, base, data, done, i + 1, n + 1)
  {
    NextRow(data, i);
    if data[i] != [] {
      assert NonEmpty(data)[n] == NonEmpty(data[..i + 1])[n];
      NextActs(start, base, NonEmpty(data), done, n);
    }
  }

  lemma LastAct(p: Process, f: Folder)
    requires Data(f).Some?
    ensures var rows, done := Data(f).value, Saved(p.world.disk, f.base);
            Load(p, f) == Perform(Perform(p, ActsTo(f.base, rows, done, |rows|)), [Save(f.base, |rows|)])
  {
    var rows, done := Data(f).value, Saved(p.world.disk, f.base);
    PerformConcat(p, ActsTo(f.base, rows, done, |rows|), [Save(f.base, |rows|)]);
  }

  // ---- the process itself ---------------------------------------------------

  /** The process. `energy` is how many more atomic actions, appends and saves, it
      performs before it dies. */
  class Loader {
    var log: seq<Entry>
    var disk: map<string, nat>
    var energy: nat

    constructor (world: World, actions: nat)
      ensures Now(true) == Process(world, actions, true)
    {
      log, disk, energy := world.log, world.disk, actions;
    }

    function Now(alive: bool): Process
      reads this
    {
      Process(World(log, disk), energy, alive)
    }

    method AppendRow(entry: Entry) returns (alive: bool)
      modifies this
      ensures Now(alive) == Perform(old(Now(true)), [Append(entry)])
    {
      PerformOne(Now(true), Append(entry));
      alive := energy > 0;
      if alive {
        log, energy := log + [entry], energy - 1;
      }
    }

    /** `_save_ckpt`: the replacement of the file is atomic. */
    method SaveCkpt(ckpt: map<string, nat>, ghost base: string, ghost n: nat) returns (alive: bool)
      requires ckpt == disk[base := n]
      modifies this
      ensures Now(alive) == Perform(old(Now(true)), [Save(base, n)])
    {
      PerformOne(Now(true), Save(base, n));
      alive := energy > 0;
      if alive {
        disk, energy := ckpt, energy - 1;
      }
    }

    /** The body of the row loop, for a row after the ones skipped. */
    method LoadRow(entry: Entry, ckpt: map<string, nat>) returns (ckpt': map<string, nat>, alive: bool)
      requires ckpt == disk
      modifies this
      ensures Now(alive) == Perform(old(Now(true)), RowActs(entry)) && (alive ==> ckpt' == disk)
    {
      ghost var start := Now(true);
      ckpt' := ckpt;
      alive := AppendRow(entry);
      if !alive {
        DeadOnTheWay(start, [Append(entry)], RowActs(entry));
      } else if entry.n % EVERY == 0 {
        PerformConcat(start, [Append(entry)], [Save(entry.base, entry.n)]);
        PerformOne(start, Append(entry));
        ckpt' := ckpt[entry.base := entry.n];
        alive := SaveCkpt(ckpt', entry.base, entry.n);
      } else {
        PerformOne(start, Append(entry));
        assert RowActs(entry) == [Append(entry)];
      }
    }

    /** One line of the file: an empty one is passed over, a nonempty one counted,
        and loaded unless the checkpoint covers it. */
    method LoadLine(base: string, data: seq<Row>, i: nat, n: nat, done: nat, ckpt: map<string, nat>,
                    ghost start: Process)
        returns (n': nat, ckpt': map<string, nat>, alive: bool)
      requires i < |data| && ckpt == disk && At(Now(true), start, base, data, done, i, n)
      modifies this
      ensures At(Now(alive), start, base, data, done, i + 1, n') && (alive ==> ckpt' == disk)
    {
      NextLine(Now(true), start, base, data, done, i, n);
      n', ckpt', alive := n, ckpt, true;
      if data[i] != [] {
        n' := n + 1;
        if n' > done {
          ckpt', alive := LoadRow(Entry(base, n', data[i]), ckpt);
        }
      }
    }

    /** `load_folder`. */
    method LoadFolder(f: Folder, ckpt: map<string, nat>) returns (ckpt': map<string, nat>, alive: bool)
      requires ckpt == disk
      modifies this
      ensures Now(alive) == Load(old(Now(true)), f) && (alive ==> ckpt' == disk)
    {
      ckpt', alive := ckpt, true;
      if !f.known || f.csv.None? || f.csv.value == [] {
        return;
      }
      var data := f.csv.value[1..];
      ghost var start := Now(true);
      var done := Saved(ckpt, f.base);
      var n := 0;
      FirstLine(start, f.base, data, done);
      for i := 0 to |data|
        invariant ckpt' == disk && At(Now(true), start, f.base, data, done, i, n)
      {
        n, ckpt', alive := LoadLine(f.base, data, i, n, done, ckpt', start);
        if !alive {
          LoadDies(Now(false), start, f, data, i + 1, n);
          return;
        }
      }
      LoadEnds(Now(true), start, f, data, n);
      ckpt' := ckpt'[f.base := n];
      alive := SaveCkpt(ckpt', f.base, n);
    }

    /** `main`: a new process reads the checkpoint file and loads every folder. */
    method Run(folders: seq<Folder>) returns (alive: bool)
      modifies this
      ensures Now(alive) == RunOf(old(Now(true)), folders)
      ensures RunLeaves(old(Now(true)).world, Now(alive).world, folders, !alive)
    {
      RunIsRun(Now(true), folders);
      alive := true;
      var ckpt := disk;
      assert folders[0..] == folders;
      for i := 0 to |folders|
        invariant ckpt == disk && RunOf(old(Now(true)), folders) == RunOf(Now(true), folders[i..])
      {
        assert folders[i..][0] == folders[i] && folders[i..][1..] == folders[i + 1..];
        ckpt, alive := LoadFolder(folders[i], ckpt);
        if !alive {
          return;
        }
      }
    }
  }

  lemma LoadDies(p: Process, start: Process, f: Folder, data: seq<Row>, i: nat, n: nat)
    requires Data(f) == Some(NonEmpty(data)) && i <= |data| && !p.alive
    requires At(p, start, f.base, data, Saved(start.world.disk, f.base), i, n)
    ensures Load(start, f) == p
  {
    var rows, done := NonEmpty(data), Saved(start.world.disk, f.base);
    ActsPrefix(f.base, rows, done, n, |rows|);
    DeadOnTheWay(start, ActsTo(f.base, rows, done, n), Plan(f, done));
  }

  lemma LoadEnds(p: Process, start: Process, f: Folder, data: seq<Row>, n: nat)
    requires Data(f) == Some(NonEmpty(data))
    requires At(p, start, f.base, data, Saved(start.world.disk, f.base), |data|, n)
    ensures Load(start, f) == Perform(p, [Save(f.base, n)])
  {
    assert data[..|data|] == data;
    LastAct(start, f);
  }

  // ---- how often a row is appended -----------------------------------------

  function Count(log: seq<Entry>, e: Entry): nat {
    multiset(log)[e]
  }

  lemma {:induction false} CountEntries(base: string, rows: seq<Row>, from: nat, upto: nat, e: Entry)
    requires upto <= |rows|
    ensures Count(Entries(base, rows, from, upto), e) ==
            if e.base == base && from < e.n <= upto && rows[e.n - 1] == e.row then 1 else 0
  {
    if from < upto {
      var front, last := Entries(base, rows, from, upto - 1), Entry(base, upto, rows[upto - 1]);
      CountEntries(base, rows, from, upto - 1, e);
      CountOneEntry(front, last, e);
      assert Entries(base, rows, from, upto) == front + [last];
    } else {
      assert Entries(base, rows, from, upto) == [];
    }
  }

  lemma CountOneEntry(log: seq<Entry>, last: Entry, e: Entry)
    ensures Count(log + [last], e) == Count(log, e) + if last == e then 1 else 0
  {
    CountAppended(log, [last], e);
  }

  lemma {:induction false} EntriesLength(base: string, rows: seq<Row>, from: nat, upto: nat)
    requires upto <= |rows|
    ensures |Entries(base, rows, from, upto)| == if from <= upto then upto - from else 0
  {
    if from < upto {
      EntriesLength(base, rows, from, upto - 1);
    }
  }

  /** Row `n` of a folder's file, as it is appended. */
  function EntryOf(base: string, rows: seq<Row>, n: nat): Entry
    requires 1 <= n <= |rows|
  {
    Entry(base, n, rows[n - 1])
  }

  /** After `k` crashes: saved rows are in the log, and no row is there more
      often than once for each run that went past it. */
  ghost predicate Tallied(w: World, f: Folder, k: nat) {
    Data(f).Some? ==>
      var rows, s := Data(f).value, Saved(w.disk, f.base);
      && s <= |rows|
      && forall n :: 1 <= n <= |rows| ==> RowTallied(Count(w.log, EntryOf(f.base, rows, n)), n <= s, k)
  }

  predicate RowTallied(count: nat, saved: bool, k: nat) {
    if saved then 1 <= count <= 1 + k else count <= k
  }

  ghost predicate AllTallied(w: World, folders: seq<Folder>, k: nat) {
    forall i :: 0 <= i < |folders| ==> Tallied(w, folders[i], k)
  }

  /** The folders of one directory have different names. */
  predicate DistinctNames(folders: seq<Folder>) {
    forall i, j :: 0 <= i < j < |folders| ==> folders[i].base != folders[j].base
  }

  lemma CountAppended(log: seq<Entry>, more: seq<Entry>, e: Entry)
    ensures Count(log + more, e) == Count(log, e) + Count(more, e)
  {}

  /** Whatever row of whatever file: a load adds it once if it went past it. */
  lemma LoadCounts(before: World, after: World, base: string, rows: seq<Row>, crashed: bool, upto: nat, saved: nat,
                   e: Entry)
    requires LoadedTo(before, after, base, rows, crashed, upto, saved)
    ensures Count(after.log, e) == Count(before.log, e) +
              if e.base == base && Saved(before.disk, base) < e.n <= upto && rows[e.n - 1] == e.row then 1 else 0
  {
    var done := Saved(before.disk, base);
    CountEntries(base, rows, done, upto, e);
    CountAppended(before.log, Entries(base, rows, done, upto), e);
  }

  lemma LoadTallies(before: World, after: World, f: Folder, g: Folder, crashed: bool, k: nat)
    requires Loaded(before, after, f, crashed) && Tallied(before, g, k)
    requires f == g || f.base != g.base
    ensures Tallied(after, g, if crashed then k + 1 else k)
  {
    if Data(f).Some? && Data(g).Some? {
      var rows, grows := Data(f).value, Data(g).value;
      var upto, saved :| LoadedTo(before, after, f.base, rows, crashed, upto, saved);
      forall n | 1 <= n <= |grows|
        ensures RowTallied(Count(after.log, EntryOf(g.base, grows, n)), n <= Saved(after.disk, g.base),
                if crashed then k + 1 else k)
      {
        assert RowTallied(Count(before.log, EntryOf(g.base, grows, n)), n <= Saved(before.disk, g.base), k);
        LoadCounts(before, after, f.base, rows, crashed, upto, saved, EntryOf(g.base, grows, n));
      }
    }
  }

  /** Rows accounted for by the checkpoint file. */
  function Covered(folders: seq<Folder>, disk: map<string, nat>): nat {
    if folders == [] then 0
    else Covered(folders[1..], disk) + if Data(folders[0]).Some? then Saved(disk, folders[0].base) else 0
  }

  lemma {:induction false} CoveredOthers(folders: seq<Folder>, disk: map<string, nat>, base: string, s: nat)
    requires forall f :: f in folders ==> f.base != base
    ensures Covered(folders, disk[base := s]) == Covered(folders, disk)
  {
    if folders != [] {
      assert folders[0] in folders;
      CoveredOthers(folders[1..], disk, base, s);
    }
  }

  lemma {:induction false} CoveredUpdate(folders: seq<Folder>, disk: map<string, nat>, i: nat, s: nat)
    requires DistinctNames(folders) && i < |folders| && Data(folders[i]).Some?
    ensures Covered(folders, disk[folders[i].base := s]) == Covered(folders, disk) - Saved(disk, folders[i].base) + s
  {
    if i == 0 {
      CoveredOthers(folders[1..], disk, folders[0].base, s);
    } else {
      CoveredUpdate(folders[1..], disk, i - 1, s);
    }
  }

  /** After `k` crashes the log is longer than the saved rows by at most 5000
      rows for each crash. */
  ghost predicate Bounded(w: World, folders: seq<Folder>, k: nat) {
    |w.log| <= Covered(folders, w.disk) + EVERY * k
  }

  lemma LoadBounded(before: World, after: World, folders: seq<Folder>, i: nat, crashed: bool, k: nat)
    requires DistinctNames(folders) && i < |folders| && Loaded(before, after, folders[i], crashed)
    requires Bounded(before, folders, k) && Tallied(before, folders[i], k)
    ensures Bounded(after, folders, if crashed then k + 1 else k)
  {
    var f := folders[i];
    if Data(f).Some? {
      var rows := Data(f).value;
      var upto, saved :| LoadedTo(before, after, f.base, rows, crashed, upto, saved);
      EntriesLength(f.base, rows, Saved(before.disk, f.base), upto);
      CoveredUpdate(folders, before.disk, i, saved);
    }
  }

  /** What every run keeps, with one crash more when it dies. */
  ghost predicate Kept(w: World, folders: seq<Folder>, k: nat) {
    AllTallied(w, folders, k) && Bounded(w, folders, k)
  }

  lemma LoadKeeps(before: World, after: World, folders: seq<Folder>, i: nat, crashed: bool, k: nat)
    requires DistinctNames(folders) && i < |folders| && Loaded(before, after, folders[i], crashed)
    requires Kept(before, folders, k)
    ensures Kept(after, folders, if crashed then k + 1 else k)
  {
    LoadBounded(before, after, folders, i, crashed, k);
    forall j | 0 <= j < |folders|
      ensures Tallied(after, folders[j], if crashed then k + 1 else k)
    {
      LoadTallies(before, after, folders[i], folders[j], crashed, k);
    }
  }

  /** The first `i` folders are saved to the end. */
  ghost predicate CompleteTo(w: World, folders: seq<Folder>, i: nat) {
    i <= |folders| && forall j :: 0 <= j < i && Data(folders[j]).Some? ==>
      Saved(w.disk, folders[j].base) == |Data(folders[j]).value|
  }

  lemma LoadCompletes(before: World, after: World, folders: seq<Folder>, i: nat)
    requires DistinctNames(folders) && i < |folders| && Loaded(before, after, folders[i], false)
    requires CompleteTo(before, folders, i)
    ensures CompleteTo(after, folders, i + 1)
  {
    forall j | 0 <= j < i + 1 && Data(folders[j]).Some?
      ensures Saved(after.disk, folders[j].base) == |Data(folders[j]).value|
    {
      assert j < i ==> folders[j].base != folders[i].base;
    }
  }

  lemma {:induction false} RunKeeps(before: World, after: World, folders: seq<Folder>, i: nat, crashed: bool, k: nat)
    requires DistinctNames(folders) && i <= |folders| && RunLeaves(before, after, folders[i..], crashed)
    requires Kept(before, folders, k) && CompleteTo(before, folders, i)
    ensures Kept(after, folders, if crashed then k + 1 else k)
    ensures !crashed ==> CompleteTo(after, folders, |folders|)
    decreases |folders| - i
  {
    if i < |folders| {
      var mid, died :| Loaded(before, mid, folders[i..][0], died)
        && if died then crashed && after == mid else RunLeaves(mid, after, folders[i..][1..], crashed);
      LoadKeeps(before, mid, folders, i, died, k);
      if !died {
        LoadCompletes(before, mid, folders, i);
        assert folders[i..][1..] == folders[i + 1..];
        RunKeeps(mid, after, folders, i + 1, crashed, k);
      }
    }
  }

  // ---- whole histories -----------------------------------------------------

  /** Runs that all died, from an empty log and no checkpoint file; the worlds
      they left. */
  ghost predicate Crashes(worlds: seq<World>, folders: seq<Folder>) {
    && worlds != [] && worlds[0] == World([], map[])
    && forall r :: 0 <= r < |worlds| - 1 ==> RunLeaves(worlds[r], worlds[r + 1], folders, true)
  }

  lemma {:induction false} CrashesKeep(worlds: seq<World>, folders: seq<Folder>)
    requires DistinctNames(folders) && Crashes(worlds, folders)
    ensures Kept(worlds[|worlds| - 1], folders, |worlds| - 1)
  {
    if |worlds| > 1 {
      var n := |worlds| - 1;
      CrashesKeep(worlds[..n], folders);
      assert RunLeaves(worlds[n - 1], worlds[n], folders, true);
      assert folders[0..] == folders;
      RunKeeps(worlds[n - 1], worlds[n], folders, 0, true, n - 1);
    }
  }

  function RowsOf(folders: seq<Folder>): nat {
    if folders == [] then 0
    else RowsOf(folders[1..]) + if Data(folders[0]).Some? then |Data(folders[0]).value| else 0
  }

  lemma {:induction false} CompleteCovers(w: World, folders: seq<Folder>)
    requires CompleteTo(w, folders, |folders|)
    ensures Covered(folders, w.disk) == RowsOf(folders)
  {
    if folders != [] {
      assert forall j :: 0 <= j < |folders| - 1 ==> folders[1..][j] == folders[j + 1];
      CompleteCovers(w, folders[1..]);
    }
  }

  /** After any number of crashes and then a run that completes, every nonempty
      row is in the log at least once and at most once more than there were
      crashes, and the crashes repeated at most 5000 rows each. */
  lemma EveryRowIsLoaded(worlds: seq<World>, after: World, folders: seq<Folder>)
    requires DistinctNames(folders) && Crashes(worlds, folders)
    requires RunLeaves(worlds[|worlds| - 1], after, folders, false)
    ensures var crashes := |worlds| - 1;
            && |after.log| <= RowsOf(folders) + EVERY * crashes
            && forall i, n :: 0 <= i < |folders| && Data(folders[i]).Some? && 1 <= n <= |Data(folders[i]).value| ==>
                 1 <= Count(after.log, EntryOf(folders[i].base, Data(folders[i]).value, n)) <= 1 + crashes
  {
    var k := |worlds| - 1;
    CrashesKeep(worlds, folders);
    assert folders[0..] == folders;
    RunKeeps(worlds[k], after, folders, 0, false, k);
    CompleteCovers(after, folders);
    forall i, n | 0 <= i < |folders| && Data(folders[i]).Some? && 1 <= n <= |Data(folders[i]).value|
      ensures 1 <= Count(after.log, EntryOf(folders[i].base, Data(folders[i]).value, n)) <= 1 + k
    {
      assert Tallied(after, folders[i], k);
      assert RowTallied(Count(after.log, EntryOf(folders[i].base, Data(folders[i]).value, n)), true, k);
    }
  }

  // ---- the same, said of the lines of the files ----------------------------

  /** How many nonempty lines stand between the header and line `i`. */
  ghost function LinesBefore(csv: seq<Row>, i: nat): nat {
    |set j | 0 <= j < |csv| && csv[j] != [] && 1 <= j < i|
  }

  lemma LinesGrow(csv: seq<Row>, last: Row)
    requires csv != []
    ensures LinesBefore(csv + [last], |csv| + 1) == LinesBefore(csv, |csv|) + if last == [] then 0 else 1
  {
    var more := csv + [last];
    var before := set j | 0 <= j < |csv| && csv[j] != [] && 1 <= j < |csv|;
    assert (set j | 0 <= j < |more| && more[j] != [] && 1 <= j < |csv| + 1) ==
           before + if last == [] then {} else {|csv|};
  }

  lemma LinesStay(csv: seq<Row>, last: Row, i: nat)
    requires i <= |csv|
    ensures LinesBefore(csv + [last], i) == LinesBefore(csv, i)
  {
    var more := csv + [last];
    assert (set j | 0 <= j < |more| && more[j] != [] && 1 <= j < i) ==
           (set j | 0 <= j < |csv| && csv[j] != [] && 1 <= j < i);
  }

  lemma RowsGrow(csv: seq<Row>, last: Row)
    requires csv != []
    ensures NonEmpty((csv + [last])[1..]) == NonEmpty(csv[1..]) + if last != [] then [last] else []
  {
    var data := (csv + [last])[1..];
    assert data == csv[1..] + [last] && data[..|data| - 1] == csv[1..];
  }

  lemma {:induction false} LinesAreCounted(csv: seq<Row>)
    requires csv != []
    ensures |NonEmpty(csv[1..])| == LinesBefore(csv, |csv|)
  {
    if |csv| > 1 {
      var front, last := csv[..|csv| - 1], csv[|csv| - 1];
      assert csv == front + [last];
      LinesAreCounted(front);
      LinesGrow(front, last);
      RowsGrow(front, last);
    } else {
      assert (set j | 0 <= j < |csv| && csv[j] != [] && 1 <= j < 1) == {};
    }
  }

  /** The rows of a load are the nonempty lines after the header, in order. */
  lemma {:induction false} RowsAreLines(csv: seq<Row>, i: nat)
    requires 1 <= i < |csv| && csv[i] != []
    ensures LinesBefore(csv, i) < |NonEmpty(csv[1..])| && NonEmpty(csv[1..])[LinesBefore(csv, i)] == csv[i]
  {
    var front, last := csv[..|csv| - 1], csv[|csv| - 1];
    assert csv == front + [last];
    RowsGrow(front, last);
    LinesStay(front, last, i);
    if i < |front| {
      RowsAreLines(front, i);
    } else {
      LinesAreCounted(front);
    }
  }

  /** Every nonempty line after the header of every file is loaded, under its own
      number, at least once and at most once more than there were crashes. */
  lemma EveryLineIsLoaded(worlds: seq<World>, after: World, folders: seq<Folder>, f: Folder, i: nat)
    requires DistinctNames(folders) && Crashes(worlds, folders)
    requires RunLeaves(worlds[|worlds| - 1], after, folders, false)
    requires f in folders && f.known && f.csv.Some? && 1 <= i < |f.csv.value| && f.csv.value[i] != []
    ensures 1 <= Count(after.log, Entry(f.base, LinesBefore(f.csv.value, i) + 1, f.csv.value[i])) <= |worlds|
  {
    EveryRowIsLoaded(worlds, after, folders);
    RowsAreLines(f.csv.value, i);
    var j :| 0 <= j < |folders| && folders[j] == f;
    var n := LinesBefore(f.csv.value, i) + 1;
    assert EntryOf(folders[j].base, Data(folders[j]).value, n) == Entry(f.base, n, f.csv.value[i]);
  }

  /** The entry is a nonempty line after the header of a file that is loaded. */
  ghost predicate IsLine(e: Entry, folders: seq<Folder>) {
    exists f, i: nat :: f in folders && LineAt(f, i, e)
  }

  ghost predicate LineAt(f: Folder, i: nat, e: Entry) {
    && f.known && f.csv.Some? && 1 <= i < |f.csv.value| && f.csv.value[i] != []
    && e == Entry(f.base, LinesBefore(f.csv.value, i) + 1, f.csv.value[i])
  }

  lemma {:induction false} RowIsLine(csv: seq<Row>, n: nat) returns (i: nat)
    requires csv != [] && 1 <= n <= |NonEmpty(csv[1..])|
    ensures 1 <= i < |csv| && csv[i] != [] && LinesBefore(csv, i) + 1 == n && NonEmpty(csv[1..])[n - 1] == csv[i]
  {
    assert |csv| > 1;
    var front, last := csv[..|csv| - 1], csv[|csv| - 1];
    assert csv == front + [last];
    RowsGrow(front, last);
    if n <= |NonEmpty(front[1..])| {
      i := RowIsLine(front, n);
    } else {
      i := |front|;
      LinesAreCounted(front);
    }
    LinesStay(front, last, i);
  }

  lemma {:induction false} EntriesAreRows(base: string, rows: seq<Row>, from: nat, upto: nat, e: Entry)
    requires upto <= |rows| && e in Entries(base, rows, from, upto)
    ensures e.base == base && from < e.n <= upto && e.row == rows[e.n - 1]
  {
    if from < upto && e in Entries(base, rows, from, upto - 1) {
      EntriesAreRows(base, rows, from, upto - 1, e);
    }
  }

  lemma LoadAddsLines(before: World, after: World, f: Folder, crashed: bool, e: Entry)
    requires Loaded(before, after, f, crashed) && e in after.log
    ensures e in before.log || exists i: nat :: LineAt(f, i, e)
  {
    if Data(f).Some? && e !in before.log {
      var rows := Data(f).value;
      var upto, saved :| LoadedTo(before, after, f.base, rows, crashed, upto, saved);
      EntriesAreRows(f.base, rows, Saved(before.disk, f.base), upto, e);
      var i := RowIsLine(f.csv.value, e.n);
      assert LineAt(f, i, e);
    }
  }

  lemma {:induction false} RunAddsLines(before: World, after: World, folders: seq<Folder>, crashed: bool, e: Entry)
    requires RunLeaves(before, after, folders, crashed) && e in after.log
    ensures e in before.log || IsLine(e, folders)
    decreases |folders|
  {
    if folders != [] {
      var mid, died :| Loaded(before, mid, folders[0], died)
        && if died then crashed && after == mid else RunLeaves(mid, after, folders[1..], crashed);
      if !died {
        RunAddsLines(mid, after, folders[1..], crashed, e);
      }
      if e in mid.log {
        LoadAddsLines(before, mid, folders[0], died, e);
      } else {
        var f, i: nat :| f in folders[1..] && LineAt(f, i, e);
        assert f in folders;
      }
    }
  }

  /** Nothing but such lines is ever in the log. */
  lemma {:induction false} OnlyLinesAreLoaded(worlds: seq<World>, folders: seq<Folder>, e: Entry)
    requires Crashes(worlds, folders) && e in worlds[|worlds| - 1].log
    ensures IsLine(e, folders)
  {
    if |worlds| > 1 {
      var n := |worlds| - 1;
      assert RunLeaves(worlds[n - 1], worlds[n], folders, true);
      RunAddsLines(worlds[n - 1], worlds[n], folders, true, e);
      if e in worlds[n - 1].log {
        assert Crashes(worlds[..n], folders);
        OnlyLinesAreLoaded(worlds[..n], folders, e);
      }
    }
  }

  lemma {:induction false} CompleteIsIdle(before: World, after: World, folders: seq<Folder>, i: nat, crashed: bool)
    requires CompleteTo(before, folders, |folders|) && i <= |folders| && RunLeaves(before, after, folders[i..], crashed)
    ensures after.log == before.log && CompleteTo(after, folders, |folders|)
    decreases |folders| - i
  {
    if i < |folders| {
      var mid, died :| Loaded(before, mid, folders[i..][0], died)
        && if died then crashed && after == mid else RunLeaves(mid, after, folders[i..][1..], crashed);
      LoadIsIdle(before, mid, folders, i, died);
      if !died {
        assert folders[i..][1..] == folders[i + 1..];
        CompleteIsIdle(mid, after, folders, i + 1, crashed);
      }
    }
  }

  lemma LoadIsIdle(before: World, after: World, folders: seq<Folder>, i: nat, crashed: bool)
    requires CompleteTo(before, folders, |folders|) && i < |folders| && Loaded(before, after, folders[i], crashed)
    ensures after.log == before.log && CompleteTo(after, folders, |folders|)
  {
    var f := folders[i];
    if Data(f).Some? {
      var rows := Data(f).value;
      var upto, saved :| LoadedTo(before, after, f.base, rows, crashed, upto, saved);
      assert Entries(f.base, rows, |rows|, upto) == [];
    }
  }

  /** Once a run has completed, further runs append nothing, whether they
      complete or die. */
  lemma FurtherRunsAppendNothing(before: World, done: World, after: World, folders: seq<Folder>, k: nat, crashed: bool)
    requires DistinctNames(folders) && Kept(before, folders, k)
    requires RunLeaves(before, done, folders, false) && RunLeaves(done, after, folders, crashed)
    ensures after.log == done.log
  {
    assert folders[0..] == folders;
    RunKeeps(before, done, folders, 0, false, k);
    CompleteIsIdle(done, after, folders, 0, crashed);
  }

  // ---- resuming without duplicates -----------------------------------------

  /** How often row `n` of a folder's file is in the log. */
  function RowCount(w: World, f: Folder, n: nat): nat
    requires Data(f).Some? && 1 <= n <= |Data(f).value|
  {
    Count(w.log, EntryOf(f.base, Data(f).value, n))
  }

  /** No row past its file's checkpoint is in the log. */
  ghost predicate LogIsSaved(w: World, folders: seq<Folder>) {
    forall f :: f in folders ==> RowsAreSaved(w, f)
  }

  ghost predicate RowsAreSaved(w: World, f: Folder) {
    Data(f).Some? ==> forall n :: Saved(w.disk, f.base) < n <= |Data(f).value| ==> RowCount(w, f, n) == 0
  }

  ghost predicate EachOnce(w: World, folders: seq<Folder>) {
    forall f, n :: f in folders && Data(f).Some? && 1 <= n <= |Data(f).value| ==> RowCount(w, f, n) == 1
  }

  /** What a run does to one file: saved rows are left alone, rows it saves are
      added once, rows past the new checkpoint at most once. */
  ghost predicate Ran(before: World, after: World, f: Folder)
    requires Data(f).Some?
  {
    var s, s' := Saved(before.disk, f.base), Saved(after.disk, f.base);
    && s <= s' <= |Data(f).value|
    && forall n :: 1 <= n <= |Data(f).value| ==> Added(RowCount(after, f, n) - RowCount(before, f, n), n <= s, n <= s')
  }

  predicate Added(more: int, saved: bool, savedNow: bool) {
    if saved then more == 0 else if savedNow then more == 1 else more == 0 || more == 1
  }

  ghost predicate Untouched(before: World, after: World, f: Folder)
    requires Data(f).Some?
  {
    && Saved(after.disk, f.base) == Saved(before.disk, f.base)
    && forall n :: 1 <= n <= |Data(f).value| ==> RowCount(after, f, n) == RowCount(before, f, n)
  }

  lemma LoadRan(before: World, after: World, f: Folder, crashed: bool)
    requires Loaded(before, after, f, crashed) && Data(f).Some? && Saved(before.disk, f.base) <= |Data(f).value|
    ensures Ran(before, after, f)
  {
    var rows := Data(f).value;
    var upto, saved :| LoadedTo(before, after, f.base, rows, crashed, upto, saved);
    assert Saved(after.disk, f.base) == saved;
    forall n | 1 <= n <= |rows|
      ensures Added(RowCount(after, f, n) - RowCount(before, f, n), n <= Saved(before.disk, f.base), n <= saved)
    {
      LoadCounts(before, after, f.base, rows, crashed, upto, saved, EntryOf(f.base, rows, n));
    }
  }

  lemma LoadLeaves(before: World, after: World, f: Folder, g: Folder, crashed: bool)
    requires Loaded(before, after, f, crashed) && f.base != g.base && Data(g).Some?
    ensures Untouched(before, after, g)
  {
    if Data(f).Some? {
      var rows := Data(f).value;
      var upto, saved :| LoadedTo(before, after, f.base, rows, crashed, upto, saved);
      forall n | 1 <= n <= |Data(g).value|
        ensures RowCount(after, g, n) == RowCount(before, g, n)
      {
        LoadCounts(before, after, f.base, rows, crashed, upto, saved, EntryOf(g.base, Data(g).value, n));
      }
    }
  }

  lemma RanThenUntouched(before: World, mid: World, after: World, f: Folder)
    requires Data(f).Some? && Ran(before, mid, f) && Untouched(mid, after, f)
    ensures Ran(before, after, f)
  {
    forall n | 1 <= n <= |Data(f).value|
      ensures RowCount(after, f, n) == RowCount(mid, f, n)
    {
    }
  }

  lemma UntouchedThenRan(before: World, mid: World, after: World, f: Folder)
    requires Data(f).Some? && Untouched(before, mid, f) && Ran(mid, after, f)
    ensures Ran(before, after, f)
  {
    forall n | 1 <= n <= |Data(f).value|
      ensures RowCount(mid, f, n) == RowCount(before, f, n)
    {
    }
  }

  lemma UntouchedTwice(before: World, mid: World, after: World, f: Folder)
    requires Data(f).Some? && Untouched(before, mid, f) && Untouched(mid, after, f)
    ensures Untouched(before, after, f)
  {}

  lemma UntouchedIsRan(before: World, after: World, f: Folder)
    requires Data(f).Some? && Untouched(before, after, f) && Saved(before.disk, f.base) <= |Data(f).value|
    ensures Ran(before, after, f)
  {}

  /** What a run from folder `i` on does to folder `j`: it runs it, or leaves it
      alone if it is past it. */
  ghost predicate RanOrLeft(before: World, after: World, f: Folder, left: bool)
    requires Data(f).Some?
  {
    if left then Untouched(before, after, f) else Ran(before, after, f)
  }

  lemma {:induction false} RunRan(before: World, after: World, folders: seq<Folder>, i: nat, j: nat, crashed: bool)
    requires DistinctNames(folders) && i <= |folders| && j < |folders| && Data(folders[j]).Some?
    requires RunLeaves(before, after, folders[i..], crashed)
    requires Saved(before.disk, folders[j].base) <= |Data(folders[j]).value|
    ensures RanOrLeft(before, after, folders[j], j < i)
    decreases |folders| - i, 1
  {
    var f := folders[j];
    if i < |folders| {
      var mid, died :| Loaded(before, mid, folders[i..][0], died)
        && if died then crashed && after == mid else RunLeaves(mid, after, folders[i..][1..], crashed);
      assert folders[i..][1..] == folders[i + 1..];
      if i == j {
        LoadRan(before, mid, f, died);
        if !died {
          RunRan(mid, after, folders, i + 1, j, crashed);
          RanThenUntouched(before, mid, after, f);
        }
      } else {
        LoadLeaves(before, mid, folders[i], f, died);
        RunRanAfter(before, mid, after, folders, i, j, crashed, died);
      }
    }
  }

  lemma RunRanAfter(before: World, mid: World, after: World, folders: seq<Folder>, i: nat, j: nat, crashed: bool,
                    died: bool)
    requires DistinctNames(folders) && i < |folders| && j < |folders| && j != i && Data(folders[j]).Some?
    requires if died then after == mid else RunLeaves(mid, after, folders[i + 1..], crashed)
    requires Untouched(before, mid, folders[j]) && Saved(before.disk, folders[j].base) <= |Data(folders[j]).value|
    ensures RanOrLeft(before, after, folders[j], j < i)
    decreases |folders| - i, 0
  {
    var f := folders[j];
    if died {
      UntouchedIsRan(before, after, f);
    } else {
      RunRan(mid, after, folders, i + 1, j, crashed);
      if j < i {
        UntouchedTwice(before, mid, after, f);
      } else {
        UntouchedThenRan(before, mid, after, f);
      }
    }
  }

  lemma WholeRunRan(before: World, after: World, folders: seq<Folder>, f: Folder, crashed: bool)
    requires DistinctNames(folders) && f in folders && Data(f).Some? && RunLeaves(before, after, folders, crashed)
    requires Saved(before.disk, f.base) <= |Data(f).value|
    ensures Ran(before, after, f)
  {
    var j :| 0 <= j < |folders| && folders[j] == f;
    assert folders[0..] == folders;
    RunRan(before, after, folders, 0, j, crashed);
  }

  /** The log holds the saved rows of the file once each and no other row. */
  ghost predicate InStep(w: World, f: Folder)
    requires Data(f).Some?
  {
    forall n :: 1 <= n <= |Data(f).value| ==> RowCount(w, f, n) == if n <= Saved(w.disk, f.base) then 1 else 0
  }

  lemma StaysInStep(before: World, after: World, f: Folder)
    requires Data(f).Some? && Ran(before, after, f) && InStep(before, f) && RowsAreSaved(after, f)
    ensures InStep(after, f)
  {
    forall n | 1 <= n <= |Data(f).value|
      ensures RowCount(after, f, n) == if n <= Saved(after.disk, f.base) then 1 else 0
    {
      assert RowCount(before, f, n) == if n <= Saved(before.disk, f.base) then 1 else 0;
      assert Added(RowCount(after, f, n) - RowCount(before, f, n), n <= Saved(before.disk, f.base),
             n <= Saved(after.disk, f.base));
    }
  }

  /** Row `n` is in the log although not saved, or twice: it will end up repeated. */
  predicate Doubles(w: World, f: Folder, n: nat)
    requires Data(f).Some? && 1 <= n <= |Data(f).value|
  {
    RowCount(w, f, n) >= if n <= Saved(w.disk, f.base) then 2 else 1
  }

  lemma StaysDouble(before: World, after: World, f: Folder, n: nat)
    requires Data(f).Some? && Ran(before, after, f) && 1 <= n <= |Data(f).value| && Doubles(before, f, n)
    ensures Doubles(after, f, n)
  {
    assert Added(RowCount(after, f, n) - RowCount(before, f, n), n <= Saved(before.disk, f.base),
           n <= Saved(after.disk, f.base));
  }

  /** If every crash left the log saved, the last crash left the file in step. */
  lemma {:induction false} CleanCrashes(worlds: seq<World>, folders: seq<Folder>, f: Folder)
    requires DistinctNames(folders) && Crashes(worlds, folders) && f in folders && Data(f).Some?
    requires forall w :: w in worlds ==> LogIsSaved(w, folders)
    ensures InStep(worlds[|worlds| - 1], f)
  {
    if |worlds| > 1 {
      var n := |worlds| - 1;
      var front := worlds[..n];
      assert forall w :: w in front ==> w in worlds;
      CleanCrashes(front, folders, f);
      FitsAfterCrashes(front, folders, f);
      assert RunLeaves(worlds[n - 1], worlds[n], folders, true);
      WholeRunRan(worlds[n - 1], worlds[n], folders, f, true);
      assert worlds[n] in worlds && RowsAreSaved(worlds[n], f);
      StaysInStep(worlds[n - 1], worlds[n], f);
    }
  }

  lemma FitsAfterCrashes(worlds: seq<World>, folders: seq<Folder>, f: Folder)
    requires DistinctNames(folders) && Crashes(worlds, folders) && f in folders && Data(f).Some?
    ensures Saved(worlds[|worlds| - 1].disk, f.base) <= |Data(f).value|
  {
    CrashesKeep(worlds, folders);
    var j :| 0 <= j < |folders| && folders[j] == f;
    assert Tallied(worlds[|worlds| - 1], folders[j], |worlds| - 1);
  }

  /** A row that some crash left unsaved is bound to be repeated. */
  lemma {:induction false} DirtyCrash(worlds: seq<World>, folders: seq<Folder>, f: Folder, n: nat, r: nat)
    requires DistinctNames(folders) && Crashes(worlds, folders) && f in folders && Data(f).Some?
    requires r < |worlds| && 1 <= n <= |Data(f).value| && Doubles(worlds[r], f, n)
    ensures Doubles(worlds[|worlds| - 1], f, n)
  {
    if r < |worlds| - 1 {
      var last := |worlds| - 1;
      var front := worlds[..last];
      DirtyCrash(front, folders, f, n, r);
      FitsAfterCrashes(front, folders, f);
      assert RunLeaves(worlds[last - 1], worlds[last], folders, true);
      WholeRunRan(worlds[last - 1], worlds[last], folders, f, true);
      StaysDouble(worlds[last - 1], worlds[last], f, n);
    }
  }

  /** A completed run after crashes has run every file to its end. */
  lemma CompletedRun(worlds: seq<World>, after: World, folders: seq<Folder>, f: Folder)
    requires DistinctNames(folders) && Crashes(worlds, folders) && f in folders && Data(f).Some?
    requires RunLeaves(worlds[|worlds| - 1], after, folders, false)
    ensures Ran(worlds[|worlds| - 1], after, f) && Saved(after.disk, f.base) == |Data(f).value|
  {
    var k := |worlds| - 1;
    FitsAfterCrashes(worlds, folders, f);
    WholeRunRan(worlds[k], after, folders, f, false);
    CrashesKeep(worlds, folders);
    assert folders[0..] == folders;
    RunKeeps(worlds[k], after, folders, 0, false, k);
  }

  /** The module's promise to resume without duplicating, over whole histories:
      after any crashes and a completed run every row is there exactly once if and
      only if every crash came with nothing in the log past the checkpoint file. */
  lemma ResumesWithoutDuplicates(worlds: seq<World>, after: World, folders: seq<Folder>)
    requires DistinctNames(folders) && Crashes(worlds, folders)
    requires RunLeaves(worlds[|worlds| - 1], after, folders, false)
    ensures EachOnce(after, folders) <==> forall w :: w in worlds ==> LogIsSaved(w, folders)
  {
    if forall w :: w in worlds ==> LogIsSaved(w, folders) {
      forall f, n | f in folders && Data(f).Some? && 1 <= n <= |Data(f).value|
        ensures RowCount(after, f, n) == 1
      {
        CleanCrashes(worlds, folders, f);
        CompletedRun(worlds, after, folders, f);
        StaysInStep(worlds[|worlds| - 1], after, f);
      }
    } else {
      var w :| w in worlds && !LogIsSaved(w, folders);
      UnsavedIsRepeated(worlds, after, folders, w);
    }
  }

  lemma UnsavedIsRepeated(worlds: seq<World>, after: World, folders: seq<Folder>, w: World)
    requires DistinctNames(folders) && Crashes(worlds, folders)
    requires RunLeaves(worlds[|worlds| - 1], after, folders, false)
    requires w in worlds && !LogIsSaved(w, folders)
    ensures !EachOnce(after, folders)
  {
    var f :| f in folders && !RowsAreSaved(w, f);
    var n :| Saved(w.disk, f.base) < n <= |Data(f).value| && RowCount(w, f, n) != 0;
    var r :| 0 <= r < |worlds| && worlds[r] == w;
    DirtyCrash(worlds, folders, f, n, r);
    CompletedRun(worlds, after, folders, f);
    StaysDouble(worlds[|worlds| - 1], after, f, n);
    assert RowCount(after, f, n) >= 2;
  }

  /** A file with one row, loaded by a process that dies after its first action
      and by one that has two: the row is there twice. */
  lemma ResumeCanDuplicate(base: string, row: Row)
    requires row != []
    ensures var f, start := Folder(base, true, Some([[], row])), World([], map[]);
            var crash := RunOf(Process(start, 1, true), [f]);
            var done := RunOf(Process(crash.world, 2, true), [f]);
            && !crash.alive && done.alive
            && Crashes([start, crash.world], [f]) && RunLeaves(crash.world, done.world, [f], false)
            && Count(done.world.log, Entry(base, 1, row)) == 2
  {
    var f, start := Folder(base, true, Some([[], row])), World([], map[]);
    var e := Entry(base, 1, row);
    OneRowPlan(f, base, row);
    var p := Process(start, 1, true);
    TwoActs(p, Append(e), Save(base, 1));
    assert RunOf(p, [f]) == Load(p, f);
    RunIsRun(p, [f]);
    var crash := RunOf(p, [f]);
    var q := Process(crash.world, 2, true);
    TwoActs(q, Append(e), Save(base, 1));
    assert RunOf(q, [f]) == RunOf(Load(q, f), []);
    RunIsRun(q, [f]);
    assert RunOf(q, [f]).world.log == [e, e];
  }

  lemma OneRowPlan(f: Folder, base: string, row: Row)
    requires f == Folder(base, true, Some([[], row])) && row != []
    ensures Plan(f, 0) == [Append(Entry(base, 1, row)), Save(base, 1)]
  {
    assert f.csv.value[1..] == [row] && [row][..0] == [];
    assert NonEmpty([row]) == NonEmpty([row][..0]) + [row] == [row];
    assert ActsTo(base, [row], 0, 1) == ActsTo(base, [row], 0, 0) + RowActs(Entry(base, 1, row));
  }

  lemma TwoActs(p: Process, a: Act, b: Act)
    requires p.alive
    ensures Perform(p, [a, b]) ==
            if p.energy == 0 then p.(alive := false)
            else if p.energy == 1 then Process(Do(p.world, a), 0, false)
            else Process(Do(Do(p.world, a), b), p.energy - 2, true)
  {
    assert [a, b] == [a] + [b];
    PerformConcat(p, [a], [b]);
    PerformOne(p, a);
    PerformOne(Perform(p, [a]), b);
  }
}
