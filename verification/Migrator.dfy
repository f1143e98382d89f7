/** The migrator: a loop over the sorted migration files that may stop at any step of any run, and
    what the database holds after any number of such runs. */
module Migrator {
  import opened Seqs

  // ----- File names

  /** The order of Go's `sort.Strings`. */
  predicate Before(a: string, b: string) {
    b != "" && (a == "" || a[0] < b[0] || (a[0] == b[0] && Before(a[1..], b[1..])))
  }

  lemma {:induction false} BeforeTransitive(a: string, b: string, c: string)
    requires Before(a, b) && Before(b, c)
    ensures Before(a, c)
  {
    if a != "" && a[0] == b[0] == c[0] {
      BeforeTransitive(a[1..], b[1..], c[1..]);
    }
  }

  lemma {:induction false} BeforeTotal(a: string, b: string)
    ensures Before(a, b) || Before(b, a) || a == b
    ensures !(Before(a, b) && Before(b, a)) && !Before(a, a)
  {
    if a != "" && b != "" {
      BeforeTotal(a[1..], b[1..]);
      assert a == [a[0]] + a[1..] && b == [b[0]] + b[1..];
    }
    if a != "" {
      BeforeTotal(a[1..], a[1..]);
    }
  }

  /** The two agree up to here, and then the first ends or has the smaller character. */
  predicate SmallerAt(a: string, b: string, k: nat) {
    k <= |a| && k < |b| && a[..k] == b[..k] && (k == |a| || a[k] < b[k])
  }

  lemma {:induction false} BeforeExactly(a: string, b: string)
    ensures Before(a, b) <==> exists k: nat :: SmallerAt(a, b, k)
  {
    if Before(a, b) {
      if a == "" || a[0] < b[0] {
        assert SmallerAt(a, b, 0);
      } else {
        BeforeExactly(a[1..], b[1..]);
        var k: nat :| SmallerAt(a[1..], b[1..], k);
        assert a == [a[0]] + a[1..] && b == [b[0]] + b[1..];
        assert SmallerAt(a, b, k + 1);
      }
    }
    if k: nat :| SmallerAt(a, b, k) {
      if k > 0 {
        assert a[0] == a[..k][0] == b[..k][0] == b[0];
        assert a[1..][..k - 1] == a[..k][1..] && b[1..][..k - 1] == b[..k][1..];
        assert SmallerAt(a[1..], b[1..], k - 1);
        BeforeExactly(a[1..], b[1..]);
      }
    }
  }

  ghost predicate Sorted(names: seq<string>) {
    forall i, j :: 0 <= i < j < |names| ==> Before(names[i], names[j])
  }

  /** `filepath.Ext` of a name without a path separator: from its last dot on. */
  function Ext(name: string): string {
    if name == "" then "" else if name[|name| - 1] == '.' then "." else
      var front := Ext(name[..|name| - 1]);
      if front == "" then "" else front + [name[|name| - 1]]
  }

  lemma {:induction false} ExtIsSuffix(name: string)
    ensures |Ext(name)| <= |name| && name[|name| - |Ext(name)|..] == Ext(name)
    ensures Ext(name) != "" ==> Ext(name)[0] == '.' && '.' !in Ext(name)[1..]
    ensures Ext(name) == "" <==> '.' !in name
  {
    if name != "" {
      var front := name[..|name| - 1];
      ExtIsSuffix(front);
      assert name == front + [name[|name| - 1]];
      if name[|name| - 1] != '.' && Ext(front) != "" {
        assert Ext(name)[1..] == Ext(front)[1..] + [name[|name| - 1]];
      }
    }
  }

  const SQL := ['.', 's', 'q', 'l']

  /** A file is a migration exactly when its name ends in ".sql". */
  lemma SqlExtension(name: string)
    ensures Ext(name) == SQL <==> |name| >= 4 && name[|name| - 4..] == SQL
  {
    ExtIsSuffix(name);
    if |name| >= 4 && name[|name| - 4..] == SQL {
      var n := |name|;
      assert name[n - 4] == '.' && name[n - 3] == 's' && name[n - 2] == 'q' && name[n - 1] == 'l';
      LastThree(name);
    }
  }

  /** The extension of the first `n` characters. */
  ghost predicate ExtOfFirst(name: string, n: nat, ext: string) {
    n <= |name| && ext != "" && Ext(name[..n]) == ext
  }

  lemma ExtAtDot(name: string, n: nat)
    requires n < |name| && name[n] == '.'
    ensures ExtOfFirst(name, n + 1, ['.'])
  {
  }

  lemma ExtNext(name: string, n: nat, ext: string)
    requires ExtOfFirst(name, n, ext) && n < |name| && name[n] != '.'
    ensures ExtOfFirst(name, n + 1, ext + [name[n]])
  {
    assert name[..n + 1][..n] == name[..n];
  }

  lemma ExtOfAll(name: string, ext: string)
    requires ExtOfFirst(name, |name|, ext)
    ensures Ext(name) == ext
  {
    assert name[..|name|] == name;
  }

  lemma LastThree(name: string)
    requires |name| >= 4 && name[|name| - 4] == '.'
    requires name[|name| - 3] != '.' && name[|name| - 2] != '.' && name[|name| - 1] != '.'
    ensures Ext(name) == ['.'] + [name[|name| - 3]] + [name[|name| - 2]] + [name[|name| - 1]]
  {
    var n := |name|;
    ExtAtDot(name, n - 4);
    ExtNext(name, n - 3, ['.']);
    ExtNext(name, n - 2, ['.'] + [name[n - 3]]);
    ExtNext(name, n - 1, ['.'] + [name[n - 3]] + [name[n - 2]]);
    ExtOfAll(name, ['.'] + [name[n - 3]] + [name[n - 2]] + [name[n - 1]]);
  }

  // ----- Runs

  datatype DirEntry = Directory | Text(content: string)

  datatype File = File(name: string, content: string)

  predicate IsMigration(dir: map<string, DirEntry>, name: string) {
    name in dir && dir[name].Text? && Ext(name) == SQL
  }

  /** The migration files of a directory in order. */
  ghost predicate Listing(dir: map<string, DirEntry>, files: seq<File>) {
    && Sorted(Names(files))
    && forall f :: f in files <==> IsMigration(dir, f.name) && dir[f.name].content == f.content
  }

  function Names(files: seq<File>): (names: seq<string>)
    ensures |names| == |files| && forall k :: 0 <= k < |files| ==> names[k] == files[k].name
  {
    seq(|files|, k requires 0 <= k < |files| => files[k].name)
  }

  function NameSet(files: seq<File>): set<string> {
    set n | n in Names(files)
  }

  /** What the database holds: the schema the migrations made, and the recorded file names. */
  datatype State<S> = State(schema: S, recorded: set<string>)

  /** Where a run stops at a file. An error of the commit leaves open whether it took effect. */
  datatype Fault = Fine | AtCheck | AtRead | AtBegin | AtExec | AtRecord | AtCommit(applied: bool)

  datatype Outcome<S> = Outcome(state: State<S>, ok: bool)

  /** The statements of a file: they change the schema or are refused. */
  type Exec<!S> = (S, string) -> Option<S>

  function Step<S>(st: State<S>, f: File, fault: Fault, exec: Exec<S>): Outcome<S> {
    if fault == AtCheck then Outcome(st, false)
    else if f.name in st.recorded then Outcome(st, true)
    else if fault == AtRead || fault == AtBegin then Outcome(st, false)
    else
      match exec(st.schema, f.content)
      case None => Outcome(st, false)
      case Some(schema) =>
        var committed := State(schema, st.recorded + {f.name});
        match fault
        case AtExec => Outcome(st, false)
        case AtRecord => Outcome(st, false)
        case AtCommit(applied) => Outcome(if applied then committed else st, false)
        case _ => Outcome(committed, true)
  }

  function First(faults: seq<Fault>): Fault {
    if faults == [] then Fine else faults[0]
  }

  function Rest(faults: seq<Fault>): seq<Fault> {
    if faults == [] then [] else faults[1..]
  }

  function Run<S>(st: State<S>, files: seq<File>, faults: seq<Fault>, exec: Exec<S>): Outcome<S>
    decreases |files|
  {
    if files == [] then Outcome(st, true)
    else
      var o := Step(st, files[0], First(faults), exec);
      if o.ok then Run(o.state, files[1..], Rest(faults), exec) else o
  }

  /** How a run goes: whether the bookkeeping table is made and the directory read, and where the run
      stops at the files, if anywhere. */
  datatype Course = Course(starts: bool, faults: seq<Fault>)

  const CLEAN := Course(true, [])

  function WholeRun<S>(st: State<S>, files: seq<File>, c: Course, exec: Exec<S>): Outcome<S> {
    if c.starts then Run(st, files, c.faults, exec) else Outcome(st, false)
  }

  // ----- What the database holds after runs over one directory

  function Fold<S>(schema: S, files: seq<File>, exec: Exec<S>): Option<S> {
    if files == [] then Some(schema)
    else
      match Fold(schema, files[..|files| - 1], exec)
      case None => None
      case Some(s) => exec(s, files[|files| - 1].content)
  }

  /** Exactly the first `k` files are recorded, and the schema is what they make, each applied once. */
  ghost predicate Holds<S>(st: State<S>, initial: S, files: seq<File>, k: nat, exec: Exec<S>) {
    k <= |files| && st.recorded == NameSet(files[..k]) && Fold(initial, files[..k], exec) == Some(st.schema)
  }

  lemma FoldPush<S>(initial: S, files: seq<File>, k: nat, exec: Exec<S>)
    requires k < |files| && Fold(initial, files[..k], exec).Some?
    ensures Fold(initial, files[..k + 1], exec) == exec(Fold(initial, files[..k], exec).value, files[k].content)
  {
    assert files[..k + 1][..k] == files[..k];
  }

  lemma NamesPush(files: seq<File>, k: nat)
    requires k < |files|
    ensures NameSet(files[..k + 1]) == NameSet(files[..k]) + {files[k].name}
  {
    assert Names(files[..k + 1]) == Names(files[..k]) + [files[k].name];
  }

  lemma RecordedExactly<S>(st: State<S>, initial: S, files: seq<File>, k: nat, pos: nat, exec: Exec<S>)
    requires Holds(st, initial, files, k, exec) && pos < |files| && Sorted(Names(files))
    ensures files[pos].name in st.recorded <==> pos < k
  {
    if pos < k {
      assert Names(files[..k])[pos] == files[pos].name;
    } else if files[pos].name in st.recorded {
      var j :| 0 <= j < k && Names(files[..k])[j] == files[pos].name;
      assert Before(Names(files)[j], Names(files)[pos]);
      BeforeTotal(files[j].name, files[pos].name);
    }
  }

  lemma StepHolds<S>(st: State<S>, initial: S, files: seq<File>, k: nat, pos: nat, fault: Fault, exec: Exec<S>) returns (k': nat)
    requires Holds(st, initial, files, k, exec) && pos <= k && pos < |files| && Sorted(Names(files))
    ensures k <= k' && Holds(Step(st, files[pos], fault, exec).state, initial, files, k', exec)
    ensures Step(st, files[pos], fault, exec).ok ==> pos < k'
    ensures fault.Fine? && !Step(st, files[pos], fault, exec).ok ==> Fold(initial, files[..pos + 1], exec).None?
  {
    RecordedExactly(st, initial, files, k, pos, exec);
    k' := k;
    if pos == k {
      FoldPush(initial, files, k, exec);
      NamesPush(files, k);
      if Step(st, files[pos], fault, exec).state != st {
        k' := k + 1;
      }
    }
  }

  lemma {:induction false} FoldFails<S>(initial: S, files: seq<File>, n: nat, exec: Exec<S>)
    requires n <= |files| && Fold(initial, files[..n], exec).None?
    ensures Fold(initial, files, exec).None?
    decreases |files|
  {
    if n < |files| {
      var front := files[..|files| - 1];
      assert front[..n] == files[..n];
      FoldFails(initial, front, n, exec);
    } else {
      assert files[..n] == files;
    }
  }

  /** One run from some position of the list on, whatever goes wrong in it: a prefix stays a prefix
      and never gets shorter; a run that reports success has applied every file; and a run in which
      nothing goes wrong reports success unless the statements of a file are refused. */
  lemma {:induction false} RunHolds<S>(st: State<S>, initial: S, files: seq<File>, k: nat, pos: nat,
                                       faults: seq<Fault>, exec: Exec<S>)
    returns (k': nat)
    requires Holds(st, initial, files, k, exec) && pos <= k && Sorted(Names(files))
    ensures k <= k' && Holds(Run(st, files[pos..], faults, exec).state, initial, files, k', exec)
    ensures Run(st, files[pos..], faults, exec).ok ==> k' == |files|
    ensures faults == [] ==> (Run(st, files[pos..], faults, exec).ok <==> Fold(initial, files, exec).Some?)
    decreases |files| - pos
  {
    if pos == |files| {
      k' := k;
      assert files[..k] == files;
    } else {
      var o := Step(st, files[pos], First(faults), exec);
      k' := StepHolds(st, initial, files, k, pos, First(faults), exec);
      if o.ok {
        assert files[pos..][1..] == files[pos + 1..];
        k' := RunHolds(o.state, initial, files, k', pos + 1, Rest(faults), exec);
      } else if faults == [] {
        FoldFails(initial, files, pos + 1, exec);
      }
    }
  }

  lemma WholeRunHolds<S>(st: State<S>, initial: S, files: seq<File>, k: nat, c: Course, exec: Exec<S>) returns (k': nat)
    requires Holds(st, initial, files, k, exec) && Sorted(Names(files))
    ensures k <= k' && Holds(WholeRun(st, files, c, exec).state, initial, files, k', exec)
    ensures WholeRun(st, files, c, exec).ok ==> k' == |files|
    ensures c == CLEAN ==> (WholeRun(st, files, c, exec).ok <==> Fold(initial, files, exec).Some?)
  {
    k' := k;
    if c.starts {
      assert files[0..] == files;
      k' := RunHolds(st, initial, files, k, 0, c.faults, exec);
    }
  }

  function Runs<S>(st: State<S>, files: seq<File>, runs: seq<Course>, exec: Exec<S>): State<S> {
    if runs == [] then st else WholeRun(Runs(st, files, runs[..|runs| - 1], exec), files, runs[|runs| - 1], exec).state
  }

  /** After any number of runs over one directory, each stopping wherever it may: exactly a prefix of
      the sorted files is recorded, and the schema is that prefix applied in order, each file once. */
  lemma {:induction false} AlwaysPrefix<S>(initial: S, files: seq<File>, runs: seq<Course>, exec: Exec<S>) returns (k: nat)
    requires Sorted(Names(files))
    ensures Holds(Runs(State(initial, {}), files, runs, exec), initial, files, k, exec)
  {
    if runs == [] {
      k := 0;
      assert files[..0] == [] && Names([]) == [];
    } else {
      var front, last := runs[..|runs| - 1], runs[|runs| - 1];
      k := AlwaysPrefix(initial, files, front, exec);
      k := WholeRunHolds(Runs(State(initial, {}), files, front, exec), initial, files, k, last, exec);
    }
  }

  /** A run in which nothing goes wrong completes the list, whatever happened before, if and only if
      the files can be applied at all. */
  lemma CleanRunCompletes<S>(initial: S, files: seq<File>, runs: seq<Course>, exec: Exec<S>)
    requires Sorted(Names(files))
    ensures var last := WholeRun(Runs(State(initial, {}), files, runs, exec), files, CLEAN, exec);
            && (last.ok <==> Fold(initial, files, exec).Some?)
            && (last.ok ==> Holds(last.state, initial, files, |files|, exec))
  {
    var k := AlwaysPrefix(initial, files, runs, exec);
    k := WholeRunHolds(Runs(State(initial, {}), files, runs, exec), initial, files, k, CLEAN, exec);
  }

  lemma {:induction false} FurtherFilesChangeNothing<S>(st: State<S>, files: seq<File>, faults: seq<Fault>, exec: Exec<S>)
    requires forall f :: f in files ==> f.name in st.recorded
    ensures Run(st, files, faults, exec).state == st
    ensures faults == [] ==> Run(st, files, faults, exec).ok
  {
    if files != [] {
      FurtherFilesChangeNothing(st, files[1..], Rest(faults), exec);
    }
  }

  /** Once everything is recorded, no run changes anything, not even one that stops halfway. */
  lemma FurtherRunChangesNothing<S>(st: State<S>, files: seq<File>, c: Course, exec: Exec<S>)
    requires forall f :: f in files ==> f.name in st.recorded
    ensures WholeRun(st, files, c, exec).state == st
    ensures c == CLEAN ==> WholeRun(st, files, c, exec).ok
  {
    FurtherFilesChangeNothing(st, files, c.faults, exec);
  }

  // ----- Directories that change between the runs

  /** Some files, no name twice, are what is recorded and what made the schema. */
  ghost predicate MadeBy<S>(st: State<S>, initial: S, history: seq<File>, exec: Exec<S>) {
    NoRepeats(Names(history)) && Holds(st, initial, history, |history|, exec)
  }

  lemma HistoryPush<S>(st: State<S>, initial: S, history: seq<File>, f: File, schema: S, exec: Exec<S>)
    requires MadeBy(st, initial, history, exec) && f.name !in st.recorded && exec(st.schema, f.content) == Some(schema)
    ensures MadeBy(State(schema, st.recorded + {f.name}), initial, history + [f], exec)
  {
    var n := |history|;
    var history' := history + [f];
    assert history'[..n] == history && history'[..n + 1] == history' && history[..n] == history;
    FoldPush(initial, history', n, exec);
    NamesPush(history', n);
    forall i | 0 <= i < n
      ensures Names(history')[i] != f.name
    {
      assert Names(history)[i] in Names(history[..n]);
    }
  }

  lemma StepMade<S>(st: State<S>, initial: S, history: seq<File>, f: File, fault: Fault, exec: Exec<S>)
    returns (history': seq<File>)
    requires MadeBy(st, initial, history, exec)
    ensures history <= history' && MadeBy(Step(st, f, fault, exec).state, initial, history', exec)
  {
    history' := history;
    if f.name !in st.recorded && Step(st, f, fault, exec).state != st {
      history' := history + [f];
      HistoryPush(st, initial, history, f, exec(st.schema, f.content).value, exec);
    }
  }

  lemma {:induction false} RunMade<S>(st: State<S>, initial: S, history: seq<File>, files: seq<File>,
                                      faults: seq<Fault>, exec: Exec<S>)
    returns (history': seq<File>)
    requires MadeBy(st, initial, history, exec)
    ensures history <= history' && MadeBy(Run(st, files, faults, exec).state, initial, history', exec)
    decreases |files|
  {
    history' := history;
    if files != [] {
      var o := Step(st, files[0], First(faults), exec);
      history' := StepMade(st, initial, history, files[0], First(faults), exec);
      if o.ok {
        history' := RunMade(o.state, initial, history', files[1..], Rest(faults), exec);
      }
    }
  }

  datatype Attempt = Attempt(files: seq<File>, course: Course)

  function Attempts<S>(st: State<S>, attempts: seq<Attempt>, exec: Exec<S>): State<S> {
    if attempts == [] then st
    else
      var last := attempts[|attempts| - 1];
      WholeRun(Attempts(st, attempts[..|attempts| - 1], exec), last.files, last.course, exec).state
  }

  /** Over runs on whatever directories, with files added, changed or removed in between, no file
      name is ever applied twice, what is recorded is what was applied, and nothing applied is lost. */
  lemma {:induction false} NeverTwice<S>(initial: S, attempts: seq<Attempt>, exec: Exec<S>) returns (history: seq<File>)
    ensures MadeBy(Attempts(State(initial, {}), attempts, exec), initial, history, exec)
  {
    if attempts == [] {
      history := [];
      assert history[..0] == [] && Names([]) == [];
    } else {
      var last := attempts[|attempts| - 1];
      history := NeverTwice(initial, attempts[..|attempts| - 1], exec);
      var st := Attempts(State(initial, {}), attempts[..|attempts| - 1], exec);
      if last.course.starts {
        history := RunMade(st, initial, history, last.files, last.course.faults, exec);
      }
    }
  }

  // ----- The migrator itself

  /** A listing is determined by the directory. */
  lemma {:induction false} SameListing(a: seq<File>, b: seq<File>)
    requires Sorted(Names(a)) && Sorted(Names(b)) && forall f :: f in a <==> f in b
    ensures a == b
    decreases |a|
  {
    assert a != [] ==> a[0] in a;
    assert b != [] ==> b[0] in b;
    if a != [] && b != [] {
      Smallest(a, b[0]);
      Smallest(b, a[0]);
      BeforeTotal(a[0].name, b[0].name);
      assert Names(a)[1..] == Names(a[1..]) && Names(b)[1..] == Names(b[1..]);
      forall f
        ensures f in a[1..] <==> f in b[1..]
      {
        NotFirst(a, f);
        NotFirst(b, f);
      }
      SameListing(a[1..], b[1..]);
    }
  }

  lemma Smallest(a: seq<File>, f: File)
    requires f in a && Sorted(Names(a))
    ensures f == a[0] || Before(a[0].name, f.name)
  {
    var k :| 0 <= k < |a| && a[k] == f;
    assert k > 0 ==> Before(Names(a)[0], Names(a)[k]);
  }

  lemma NotFirst(a: seq<File>, f: File)
    requires a != [] && Sorted(Names(a))
    ensures f in a[1..] <==> f in a && f != a[0]
  {
    if f in a[1..] {
      var k :| 0 <= k < |a| - 1 && a[1..][k] == f;
      assert Before(Names(a)[0], Names(a)[k + 1]);
      BeforeTotal(a[0].name, a[0].name);
    }
  }

  /** The first list's files are all in the second, and the second's other files sort behind them. */
  ghost predicate FilesBehind(a: seq<File>, b: seq<File>) {
    && (forall f :: f in a ==> f in b)
    && (forall f, g :: f in a && g in b && g !in a ==> Before(f.name, g.name))
  }

  /** Two sorted lists, the second going on where the first ends. */
  ghost predicate Continued(a: seq<File>, b: seq<File>) {
    Sorted(Names(a)) && Sorted(Names(b)) && FilesBehind(a, b)
  }

  lemma {:induction false} ContinuedIsPrefix(a: seq<File>, b: seq<File>)
    requires Continued(a, b)
    ensures a <= b
    decreases |a|
  {
    if a != [] {
      SameFirst(a, b);
      ContinuedTail(a, b);
      ContinuedIsPrefix(a[1..], b[1..]);
      PrefixPush(a, b);
    }
  }

  lemma PrefixPush(a: seq<File>, b: seq<File>)
    requires a != [] && b != [] && a[0] == b[0] && a[1..] <= b[1..]
    ensures a <= b
  {
    assert a == [a[0]] + a[1..] && b == [b[0]] + b[1..];
  }

  lemma SameFirst(a: seq<File>, b: seq<File>)
    requires Continued(a, b) && a != []
    ensures b != [] && a[0] == b[0]
  {
    assert a[0] in a && a[0] in b && b[0] in b;
    Smallest(b, a[0]);
    if b[0] in a {
      Smallest(a, b[0]);
    }
    BeforeTotal(a[0].name, b[0].name);
  }

  lemma SortedTail(a: seq<File>)
    requires a != [] && Sorted(Names(a))
    ensures Sorted(Names(a[1..]))
  {
    assert Names(a[1..]) == Names(a)[1..];
  }

  lemma TailsBehind(a: seq<File>, b: seq<File>)
    requires Continued(a, b) && a != [] && b != [] && a[0] == b[0]
    ensures FilesBehind(a[1..], b[1..])
  {
    forall f
      ensures f in a[1..] <==> f in a && f != a[0]
      ensures f in b[1..] <==> f in b && f != b[0]
    {
      NotFirst(a, f);
      NotFirst(b, f);
    }
  }

  lemma ContinuedTail(a: seq<File>, b: seq<File>)
    requires Continued(a, b) && a != [] && b != [] && a[0] == b[0]
    ensures Continued(a[1..], b[1..])
  {
    SortedTail(a);
    SortedTail(b);
    TailsBehind(a, b);
  }

  lemma PrefixBehind(a: seq<File>, b: seq<File>)
    requires Sorted(Names(b)) && a <= b
    ensures FilesBehind(a, b)
  {
    forall f, g | f in a && g in b && g !in a
      ensures Before(f.name, g.name)
    {
      var i :| 0 <= i < |a| && a[i] == f;
      var j :| 0 <= j < |b| && b[j] == g;
      assert j >= |a|;
      assert Before(Names(b)[i], Names(b)[j]);
    }
  }

  /** The later directory still has every migration, unchanged, and its new ones sort behind them. */
  ghost predicate Extends(dir: map<string, DirEntry>, later: map<string, DirEntry>) {
    && (forall n :: IsMigration(dir, n) ==> IsMigration(later, n) && later[n] == dir[n])
    && (forall m, n :: IsMigration(dir, m) && IsMigration(later, n) && !IsMigration(dir, n) ==> Before(m, n))
  }

  lemma ListedBehind(dir: map<string, DirEntry>, later: map<string, DirEntry>, a: seq<File>, b: seq<File>)
    requires Listing(dir, a) && Listing(later, b)
    ensures FilesBehind(a, b) <==> Extends(dir, later)
  {
    if FilesBehind(a, b) {
      forall n | IsMigration(dir, n)
        ensures IsMigration(later, n) && later[n] == dir[n]
      {
        assert File(n, dir[n].content) in a;
      }
      forall m, n | IsMigration(dir, m) && IsMigration(later, n) && !IsMigration(dir, n)
        ensures Before(m, n)
      {
        assert File(m, dir[m].content) in a && File(n, later[n].content) in b;
      }
    }
  }

  /** The files of one directory are the first files of a later one if and only if the later one keeps
      them all and adds only files that sort behind them; what is recorded then stays a prefix. */
  lemma LaterFiles<S>(dir: map<string, DirEntry>, later: map<string, DirEntry>, files: seq<File>, more: seq<File>,
                      st: State<S>, initial: S, k: nat, exec: Exec<S>)
    requires Listing(dir, files) && Listing(later, more)
    ensures files <= more <==> Extends(dir, later)
    ensures Extends(dir, later) && Holds(st, initial, files, k, exec) ==> Holds(st, initial, more, k, exec)
  {
    ListedBehind(dir, later, files, more);
    if Extends(dir, later) {
      ContinuedIsPrefix(files, more);
      assert k <= |files| ==> more[..k] == files[..k];
    } else if files <= more {
      PrefixBehind(files, more);
    }
  }

  class Database<S(!new)> {
    var schema: S
    var recorded: set<string>
    const exec: Exec<S>

    ghost function Snapshot(): State<S>
      reads this
    {
      State(schema, recorded)
    }

    constructor (initial: S, exec: Exec<S>)
      ensures Snapshot() == State(initial, {}) && this.exec == exec
    {
      schema, recorded, this.exec := initial, {}, exec;
    }

    /** Inserts a name where it belongs among sorted ones. */
    static method InsertName(names: seq<string>, name: string) returns (more: seq<string>)
      requires Sorted(names) && name !in names
      ensures Sorted(more) && forall n :: n in more <==> n in names || n == name
    {
      var i := |names|;
      while i > 0 && Before(name, names[i - 1])
        invariant 0 <= i <= |names| && forall k :: i <= k < |names| ==> Before(name, names[k])
      {
        i := i - 1;
      }
      more := names[..i] + [name] + names[i..];
      forall k | 0 <= k < i
        ensures Before(names[k], name)
      {
        assert names[i - 1] in names;
        BeforeTotal(names[i - 1], name);
        if k < i - 1 {
          BeforeTransitive(names[k], names[i - 1], name);
        }
      }
    }

    /** Reads the directory, keeps the migrations, sorts them. */
    static method ListFiles(dir: map<string, DirEntry>) returns (names: seq<string>)
      ensures Sorted(names) && forall n :: n in names <==> IsMigration(dir, n)
      ensures forall n :: n in names <==> n in dir && dir[n].Text? && |n| >= 4 && n[|n| - 4..] == SQL
    {
      forall n
        ensures IsMigration(dir, n) <==> n in dir && dir[n].Text? && |n| >= 4 && n[|n| - 4..] == SQL
      {
        SqlExtension(n);
      }
      names := [];
      var left := dir.Keys;
      while left != {}
        invariant left <= dir.Keys && Sorted(names)
        invariant forall n :: n in names <==> IsMigration(dir, n) && n !in left
        decreases left
      {
        var name :| name in left;
        if dir[name].Text? && Ext(name) == SQL {
          names := InsertName(names, name);
        }
        left := left - {name};
      }
    }

    /** One file: the check, and the transaction that applies and records it. */
    method Migrate(f: File, fault: Fault) returns (ok: bool)
      modifies this
      ensures Outcome(Snapshot(), ok) == Step(old(Snapshot()), f, fault, exec)
    {
      if fault == AtCheck {
        return false;
      }
      if f.name in recorded {
        return true;
      }
      if fault == AtRead || fault == AtBegin {
        return false;
      }
      var result := exec(schema, f.content);
      if result.None? || fault == AtExec || fault == AtRecord {
        return false;
      }
      if fault.AtCommit? && !fault.applied {
        return false;
      }
      schema, recorded := result.value, recorded + {f.name};
      ok := !fault.AtCommit?;
    }

    /** The whole run: over the files of the directory in order, from where `c` lets it start to where
        it lets it stop. */
    method RunMigrations(dir: map<string, DirEntry>, c: Course) returns (ok: bool, ghost files: seq<File>)
      modifies this
      ensures Listing(dir, files) && forall listed :: Listing(dir, listed) ==> listed == files
      ensures Outcome(Snapshot(), ok) == WholeRun(old(Snapshot()), files, c, exec)
    {
      var names := ListFiles(dir);
      files := seq(|names|, k requires 0 <= k < |names| => File(names[k], ContentOf(dir, names[k])));
      IsListing(dir, names, files);
      if !c.starts {
        return false, files;
      }
      var left := c.faults;
      for i := 0 to |names|
        invariant Run(old(Snapshot()), files, c.faults, exec) == Run(Snapshot(), files[i..], left, exec)
      {
        assert files[i..][1..] == files[i + 1..];
        assert names[i] in names;
        ok := Migrate(File(names[i], dir[names[i]].content), First(left));
        if !ok {
          return;
        }
        left := Rest(left);
      }
      ok := true;
    }
  }

  function ContentOf(dir: map<string, DirEntry>, name: string): string {
    if name in dir && dir[name].Text? then dir[name].content else ""
  }

  /** The sorted names with their contents are the one listing of the directory. */
  lemma IsListing(dir: map<string, DirEntry>, names: seq<string>, listed: seq<File>)
    requires Sorted(names) && (forall n :: n in names <==> IsMigration(dir, n)) && |listed| == |names|
    requires forall k :: 0 <= k < |names| ==> listed[k] == File(names[k], ContentOf(dir, names[k]))
    ensures Listing(dir, listed) && forall files :: Listing(dir, files) ==> files == listed
  {
    assert Names(listed) == names;
    forall f
      ensures f in listed <==> IsMigration(dir, f.name) && dir[f.name].content == f.content
    {
      if IsMigration(dir, f.name) && dir[f.name].content == f.content {
        var k :| 0 <= k < |names| && names[k] == f.name;
        assert listed[k] == f;
      }
      if f in listed {
        var k :| 0 <= k < |listed| && listed[k] == f;
        assert names[k] in names;
      }
    }
    forall files | Listing(dir, files)
      ensures files == listed
    {
      SameListing(files, listed);
    }
  }
}
