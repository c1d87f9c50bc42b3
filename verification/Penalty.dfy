/** The penalty score of a symbol (client/js/qr.js:253-324; section 7.8.3 of ISO/IEC 18004:2015). */
module Penalty {
  import opened Numbers
  import opened Grids
  import FreeModules

  type Line = seq<bool>

  // ---- Run lengths ----

  /** The lengths of the runs of a line, alternating light and dark and starting with light: the
      first is 0 when the line starts dark. */
  function Runs(line: Line): (r: seq<nat>)
    ensures |r| > 0
  {
    if |line| == 0 then [0]
    else
      var r, last := Runs(line[..|line| - 1]), line[|line| - 1];
      if last == Colour(r) then r[|r| - 1 := r[|r| - 1] + 1] else r + [1]
  }

  lemma RunsOneMore(line: Line, x: nat)
    requires x < |line|
    ensures var r := Runs(line[..x]);
            Runs(line[..x + 1]) == if line[x] == Colour(r) then r[|r| - 1 := r[|r| - 1] + 1] else r + [1]
  {
    assert line[..x + 1][..x] == line[..x];
  }

  /** The colour of the last run: dark (true) when there is an even number of runs. */
  predicate Colour(runs: seq<nat>) {
    |runs| % 2 == 0
  }

  /** n modules of one colour. */
  function Solid(dark: bool, n: nat): Line {
    seq(n, _ => dark)
  }

  function Expand(runs: seq<nat>): Line {
    if |runs| == 0 then [] else Expand(runs[..|runs| - 1]) + Solid(Colour(runs), runs[|runs| - 1])
  }

  /** Runs is a run-length encoding: it expands to the line ... */
  lemma {:induction false} ExpandRuns(line: Line)
    ensures Expand(Runs(line)) == line
  {
    if |line| == 0 {
      assert Expand([0]) == Expand([0][..0]) + Solid(false, 0);
    } else {
      var n := |line| - 1;
      var front := line[..n];
      ExpandRuns(front);
      RunsOneMore(line, n);
      assert line[..n + 1] == line == front + [line[n]];
      ExpandOneMore(Runs(front), line[n]);
    }
  }

  lemma ExpandOneMore(r: seq<nat>, dark: bool)
    requires |r| > 0
    ensures dark == Colour(r) ==> Expand(r[|r| - 1 := r[|r| - 1] + 1]) == Expand(r) + [dark]
    ensures dark != Colour(r) ==> Expand(r + [1]) == Expand(r) + [dark]
  {
    var m := |r| - 1;
    assert r[m := r[m] + 1][..m] == r[..m];
    assert Solid(dark, r[m] + 1) == Solid(dark, r[m]) + [dark];
    assert (r + [1])[..m + 1] == r;
    assert Solid(dark, 1) == [dark];
  }

  /** ... and its runs are maximal: only the first can be empty. */
  lemma {:induction false} RunsMaximal(line: Line)
    ensures forall i :: 0 < i < |Runs(line)| ==> Runs(line)[i] > 0
  {
    if |line| > 0 { RunsMaximal(line[..|line| - 1]); }
  }

  /** The runs with the first, light, one widened by the light border in front of the line. */
  function Widened(runs: seq<nat>, size: nat): (r: seq<nat>)
    requires |runs| > 0
    ensures |r| == |runs|
  {
    [runs[0] + size] + runs[1..]
  }

  /** The runs of the line with a light border as wide as the symbol on both sides. */
  function Padded(runs: seq<nat>, size: nat): (r: seq<nat>)
    requires |runs| > 0
  {
    var w, m := Widened(runs, size), |runs| - 1;
    if Colour(runs) then w + [size] else w[..m] + [w[m] + size]
  }

  // ---- The declarative score of a line ----

  /** A run of length L scores L - 2 from length 5 on. */
  function RunScore(n: nat): nat {
    if n >= 5 then n - 2 else 0
  }

  function RunScores(runs: seq<nat>): nat {
    if |runs| == 0 then 0 else RunScores(runs[..|runs| - 1]) + RunScore(runs[|runs| - 1])
  }

  /** Finder-like patterns centred in the seven runs from index k on: 1:1:3:1:1, dark first, with a
      light margin of at least 4 units on one side and at least 1 on the other. Both ways round
      count. */
  function PatternsAt(runs: seq<nat>, k: nat): nat
    requires k + 7 <= |runs|
  {
    var n := runs[k + 1];
    if n > 0 && runs[k + 2] == n && runs[k + 3] == 3 * n && runs[k + 4] == n && runs[k + 5] == n
    then (if runs[k] >= 4 * n && runs[k + 6] >= n then 1 else 0)
         + (if runs[k + 6] >= 4 * n && runs[k] >= n then 1 else 0)
    else 0
  }

  /** Patterns over every seven consecutive runs, of the first m, that start and end light. */
  function Patterns(runs: seq<nat>, m: nat): nat
    requires m <= |runs|
  {
    if m < 7 then 0 else Patterns(runs, m - 1) + if m % 2 == 0 then 0 else PatternsAt(runs, m - 7)
  }

  function LineScore(line: Line, size: nat): nat {
    var padded := Padded(Runs(line), size);
    RunScores(Runs(line)) + 40 * Patterns(padded, |padded|)
  }

  // ---- The scan with a history of seven runs ----

  /** The last seven runs, newest first. */
  datatype History = History(h0: nat, h1: nat, h2: nat, h3: nat, h4: nat, h5: nat, h6: nat)

  function CountPatterns(rh: History): nat {
    var n := rh.h1;
    var core := n > 0 && rh.h2 == n && rh.h3 == n * 3 && rh.h4 == n && rh.h5 == n;
    (if core && rh.h0 >= n * 4 && rh.h6 >= n then 1 else 0) + (if core && rh.h6 >= n * 4 && rh.h0 >= n then 1 else 0)
  }

  /** `pop` drops the oldest run and `unshift` adds the newest; the first run of a line is widened
      by the light border. */
  function AddHistory(currentRunLength: nat, rh: History, size: nat): History {
    History(currentRunLength + if rh.h0 == 0 then size else 0, rh.h0, rh.h1, rh.h2, rh.h3, rh.h4, rh.h5)
  }

  function TerminateAndCount(currentRunColor: bool, currentRunLength: nat, rh: History, size: nat): nat {
    var rh' := if currentRunColor then AddHistory(currentRunLength, rh, size) else rh;
    var length := if currentRunColor then 0 else currentRunLength;
    CountPatterns(AddHistory(length + size, rh', size))
  }

  /** The run i places before the end, as far as there are that many. */
  function Last(done: seq<nat>, i: nat): nat {
    if i < |done| then done[|done| - 1 - i] else 0
  }

  function Recent(done: seq<nat>): History {
    History(Last(done, 0), Last(done, 1), Last(done, 2), Last(done, 3), Last(done, 4), Last(done, 5), Last(done, 6))
  }

  /** The completed runs of a line, the first widened by the light border. */
  function Done(runs: seq<nat>, size: nat): (r: seq<nat>)
    requires |runs| > 0
    ensures |r| == |runs| - 1
  {
    Widened(runs, size)[..|runs| - 1]
  }

  predicate PositiveAfterFirst(runs: seq<nat>) {
    forall i :: 0 < i < |runs| ==> runs[i] > 0
  }

  lemma PushRecent(done: seq<nat>, n: nat, size: nat)
    requires size > 0 && (|done| > 0 ==> done[|done| - 1] > 0)
    ensures AddHistory(n, Recent(done), size) == Recent(done + [if |done| == 0 then n + size else n])
  {}

  /** On a completed light run the history counts exactly the pattern ending there. */
  lemma CountRecent(done: seq<nat>)
    requires |done| % 2 == 1 && Positive(done)
    ensures Patterns(done, |done| - 1) + CountPatterns(Recent(done)) == Patterns(done, |done|)
  {
    if |done| < 7 { assert Last(done, 5) == 0; }
  }

  predicate Positive(done: seq<nat>) {
    forall i :: 0 <= i < |done| ==> done[i] > 0
  }

  /** Only the first m runs matter. */
  lemma {:induction false} PatternsPrefix(a: seq<nat>, b: seq<nat>, m: nat)
    requires m <= |a| && m <= |b| && forall i :: 0 <= i < m ==> a[i] == b[i]
    ensures Patterns(a, m) == Patterns(b, m)
  {
    if m > 0 { PatternsPrefix(a, b, m - 1); }
  }

  method ScanLine(line: Line, size: nat) returns (result: nat)
    requires size > 0
    ensures result == LineScore(line, size)
  {
    result := 0;
    var runColor, runX := false, 0;
    var runHistory := History(0, 0, 0, 0, 0, 0, 0);
    ghost var runs := Runs(line[..0]);
    for x := 0 to |line|
      invariant runs == Runs(line[..x]) && PositiveAfterFirst(runs)
      invariant runColor == Colour(runs) && runX == runs[|runs| - 1]
      invariant runHistory == Recent(Done(runs, size))
      invariant result == RunScores(runs) + 40 * Patterns(Done(runs, size), |runs| - 1)
    {
      RunsOneMore(line, x);
      ghost var next := Runs(line[..x + 1]);
      if line[x] == runColor {
        GrowRun(runs, next, size);
        runX := runX + 1;
        if runX == 5 {
          result := result + 3;
        } else if runX > 5 {
          result := result + 1;
        }
      } else {
        CompleteRun(runs, next, size);
        CompleteHistory(runs, size);
        runHistory := AddHistory(runX, runHistory, size);
        if !runColor {
          result := result + CountPatterns(runHistory) * 40;
        }
        runColor := line[x];
        runX := 1;
      }
      runs := next;
    }
    assert line[..|line|] == line;
    FinishLine(runs, size);
    result := result + TerminateAndCount(runColor, runX, runHistory, size) * 40;
  }

  lemma GrowRun(runs: seq<nat>, next: seq<nat>, size: nat)
    requires |runs| > 0 && next == runs[|runs| - 1 := runs[|runs| - 1] + 1]
    requires PositiveAfterFirst(runs)
    ensures Colour(next) == Colour(runs) && PositiveAfterFirst(next)
    ensures Done(next, size) == Done(runs, size)
    ensures RunScores(next) == RunScores(runs) + RunScore(runs[|runs| - 1] + 1) - RunScore(runs[|runs| - 1])
  {
    assert next[..|runs| - 1] == runs[..|runs| - 1];
  }

  lemma CompleteRun(runs: seq<nat>, next: seq<nat>, size: nat)
    requires size > 0 && |runs| > 0 && next == runs + [1] && PositiveAfterFirst(runs)
    ensures Colour(next) == !Colour(runs) && PositiveAfterFirst(next)
    ensures RunScores(next) == RunScores(runs)
    ensures Done(next, size) == Widened(runs, size)
  {
    OneMoreColour(runs);
    OneMoreScore(runs);
    OneMoreWidened(runs, size);
  }

  lemma OneMoreColour(runs: seq<nat>)
    ensures Colour(runs + [1]) == !Colour(runs)
  {}

  lemma OneMoreWidened(runs: seq<nat>, size: nat)
    requires |runs| > 0
    ensures Done(runs + [1], size) == Widened(runs, size)
  {
    assert (runs + [1])[1..] == runs[1..] + [1];
  }

  lemma OneMoreScore(runs: seq<nat>)
    ensures RunScores(runs + [1]) == RunScores(runs)
  {
    assert (runs + [1])[..|runs|] == runs;
  }

  lemma CompleteHistory(runs: seq<nat>, size: nat)
    requires size > 0 && |runs| > 0 && PositiveAfterFirst(runs)
    ensures Recent(Widened(runs, size)) == AddHistory(runs[|runs| - 1], Recent(Done(runs, size)), size)
    ensures Patterns(Widened(runs, size), |runs|) == Patterns(Done(runs, size), |runs| - 1)
          + if Colour(runs) then 0 else CountPatterns(Recent(Widened(runs, size)))
  {
    PushWidened(runs, size);
    CompletePatterns(Done(runs, size), Widened(runs, size));
  }

  /** Adding the current run to the history. */
  lemma PushWidened(runs: seq<nat>, size: nat)
    requires size > 0 && |runs| > 0 && PositiveAfterFirst(runs)
    ensures AddHistory(runs[|runs| - 1], Recent(Done(runs, size)), size) == Recent(Widened(runs, size))
    ensures Widened(runs, size)[..|runs| - 1] == Done(runs, size) && Positive(Widened(runs, size))
  {
    var done, w, m := Done(runs, size), Widened(runs, size), |runs| - 1;
    assert w == done + [w[m]];
    PushRecent(done, runs[m], size);
  }

  lemma CompletePatterns(done: seq<nat>, next: seq<nat>)
    requires |next| == |done| + 1 && next[..|done|] == done && Positive(next)
    ensures Patterns(next, |next|) == Patterns(done, |done|)
          + if |next| % 2 == 0 then 0 else CountPatterns(Recent(next))
  {
    PatternsPrefix(next, done, |done|);
    if |next| % 2 == 1 { CountRecent(next); }
  }

  /** The final call closes the line with its light border. */
  lemma FinishLine(runs: seq<nat>, size: nat)
    requires size > 0 && |runs| > 0 && PositiveAfterFirst(runs)
    ensures Patterns(Done(runs, size), |runs| - 1)
          + TerminateAndCount(Colour(runs), runs[|runs| - 1], Recent(Done(runs, size)), size)
         == Patterns(Padded(runs, size), |Padded(runs, size)|)
  {
    var done, w, m := Done(runs, size), Widened(runs, size), |runs| - 1;
    PushWidened(runs, size);
    if Colour(runs) {
      FinishDark(done, w, runs[m], size);
    } else {
      FinishLight(done, runs[m], size);
      assert w[m] == if |done| == 0 then runs[m] + size else runs[m];
    }
  }

  lemma FinishDark(done: seq<nat>, w: seq<nat>, last: nat, size: nat)
    requires size > 0 && |w| == |done| + 1 && |w| % 2 == 0 && w[..|done|] == done && Positive(w)
    requires AddHistory(last, Recent(done), size) == Recent(w)
    ensures Patterns(done, |done|) + TerminateAndCount(true, last, Recent(done), size) == Patterns(w + [size], |w| + 1)
  {
    CompletePatterns(done, w);
    PushRecent(w, size, size);
    CompletePatterns(w, w + [size]);
  }

  lemma FinishLight(done: seq<nat>, last: nat, size: nat)
    requires size > 0 && |done| % 2 == 0 && Positive(done)
    ensures Patterns(done, |done|) + TerminateAndCount(false, last, Recent(done), size)
         == Patterns(done + [if |done| == 0 then last + size + size else last + size], |done| + 1)
  {
    var w := if |done| == 0 then last + size + size else last + size;
    PushRecent(done, last + size, size);
    CompletePatterns(done, done + [w]);
  }

  // ---- The score of a symbol ----

  function Columns(g: Grid, n: nat): (r: seq<Line>)
    requires Square(g, n)
    ensures |r| == n && forall x, y :: 0 <= x < n && 0 <= y < n ==> |r[x]| == n && r[x][y] == g[y][x]
  {
    seq(n, x requires 0 <= x < n => seq(n, y requires 0 <= y < n => g[y][x]))
  }

  function LineScores(lines: seq<Line>, size: nat): nat {
    if |lines| == 0 then 0 else LineScores(lines[..|lines| - 1], size) + LineScore(lines[|lines| - 1], size)
  }

  /** The four modules whose top left corner is (x, y) have one colour. */
  predicate UniformBlock(g: Grid, n: nat, x: nat, y: nat)
    requires Square(g, n) && x + 1 < n && y + 1 < n
  {
    g[y][x] == g[y][x + 1] == g[y + 1][x] == g[y + 1][x + 1]
  }

  /** The uniform blocks among the first rows and the first columns of the row after them. */
  ghost function BlocksBefore(g: Grid, n: nat, row: nat, column: nat): set<Cell>
    requires Square(g, n)
  {
    set x, y | 0 <= x < n - 1 && 0 <= y < n - 1 && (y < row || (y == row && x < column)) && UniformBlock(g, n, x, y)
      :: Cell(x, y)
  }

  ghost function UniformBlocks(g: Grid, n: nat): set<Cell>
    requires Square(g, n)
  {
    BlocksBefore(g, n, n, 0)
  }

  ghost function DarkBefore(g: Grid, n: nat, row: nat, column: nat): set<Cell>
    requires Square(g, n)
  {
    set x, y | 0 <= x < n && 0 <= y < n && (y < row || (y == row && x < column)) && g[y][x] :: Cell(x, y)
  }

  ghost function DarkModules(g: Grid, n: nat): set<Cell>
    requires Square(g, n)
  {
    DarkBefore(g, n, n, 0)
  }

  /** The steps of 5% by which the share of dark modules misses one half, less one. */
  function BalanceSteps(dark: nat, n: nat): int
    requires n > 0
  {
    CeilDiv(Abs(dark * 20 - n * n * 10), n * n) - 1
  }

  function CeilDiv(a: nat, d: nat): nat
    requires d > 0
  {
    (a + d - 1) / d
  }

  ghost function Score(g: Grid, n: nat): int
    requires Square(g, n) && n > 0
  {
    LineScores(g, n) + LineScores(Columns(g, n), n) + 3 * |UniformBlocks(g, n)|
    + 10 * BalanceSteps(|DarkModules(g, n)|, n)
  }

  method GetPenaltyScore(modules: Grid, size: nat) returns (result: int)
    requires Square(modules, size) && size > 0
    ensures result == Score(modules, size)
  {
    var rows := ScanLines(modules, size);
    var columns := ScanLines(Columns(modules, size), size);
    var blocks := CountBlocks(modules, size);
    var dark := CountDark(modules, size);
    var k := BalanceSteps(dark, size);
    result := rows + columns + blocks + 10 * k;
  }

  /** The loop over the rows, and over the columns. */
  method ScanLines(lines: seq<Line>, size: nat) returns (result: nat)
    requires size > 0
    ensures result == LineScores(lines, size)
  {
    result := 0;
    for y := 0 to |lines|
      invariant result == LineScores(lines[..y], size)
    {
      var s := ScanLine(lines[y], size);
      assert lines[..y + 1][..y] == lines[..y];
      result := result + s;
    }
    assert lines[..|lines|] == lines;
  }

  lemma BlockStep(g: Grid, n: nat, x: nat, y: nat)
    requires Square(g, n) && x + 1 < n && y + 1 < n
    ensures Cell(x, y) !in BlocksBefore(g, n, y, x)
    ensures BlocksBefore(g, n, y, x + 1)
         == BlocksBefore(g, n, y, x) + if UniformBlock(g, n, x, y) then {Cell(x, y)} else {}
  {}

  lemma BlockRow(g: Grid, n: nat, y: nat)
    requires Square(g, n) && n > 0
    ensures BlocksBefore(g, n, y, n - 1) == BlocksBefore(g, n, y + 1, 0)
    ensures BlocksBefore(g, n, n - 1, 0) == UniformBlocks(g, n)
    ensures BlocksBefore(g, n, 0, 0) == {}
  {}

  /** The loop over 2x2 blocks: 3 for each uniform one. */
  method CountBlocks(modules: Grid, size: nat) returns (result: nat)
    requires Square(modules, size) && size > 0
    ensures result == 3 * |UniformBlocks(modules, size)|
  {
    result := 0;
    BlockRow(modules, size, 0);
    for y := 0 to size - 1
      invariant result == 3 * |BlocksBefore(modules, size, y, 0)|
    {
      for x := 0 to size - 1
        invariant result == 3 * |BlocksBefore(modules, size, y, x)|
      {
        BlockStep(modules, size, x, y);
        var c := modules[y][x];
        if c == modules[y][x + 1] && c == modules[y + 1][x] && c == modules[y + 1][x + 1] {
          result := result + 3;
        }
      }
      BlockRow(modules, size, y);
    }
  }

  lemma DarkStep(g: Grid, n: nat, x: nat, y: nat)
    requires Square(g, n) && x < n && y < n
    ensures Cell(x, y) !in DarkBefore(g, n, y, x)
    ensures DarkBefore(g, n, y, x + 1) == DarkBefore(g, n, y, x) + if g[y][x] then {Cell(x, y)} else {}
  {}

  lemma DarkRow(g: Grid, n: nat, y: nat)
    requires Square(g, n)
    ensures DarkBefore(g, n, y, n) == DarkBefore(g, n, y + 1, 0)
    ensures DarkBefore(g, n, 0, 0) == {}
  {}

  method CountDark(modules: Grid, size: nat) returns (dark: nat)
    requires Square(modules, size)
    ensures dark == |DarkModules(modules, size)|
  {
    dark := 0;
    DarkRow(modules, size, 0);
    for y := 0 to size
      invariant dark == |DarkBefore(modules, size, y, 0)|
    {
      for x := 0 to size
        invariant dark == |DarkBefore(modules, size, y, x)|
      {
        DarkStep(modules, size, x, y);
        if modules[y][x] {
          dark := dark + 1;
        }
      }
      DarkRow(modules, size, y);
    }
  }

  lemma OddSquare(n: nat)
    requires n % 2 == 1
    ensures n * n % 2 == 1
  {
    var m := n / 2;
    assert n * n == 2 * (2 * m * m + 2 * m) + 1;
  }

  /** The side of a symbol is odd, so the dark share is never exactly one half and the balance
      term never goes negative; it is the k whose 5% steps bracket the deviation. */
  lemma BalanceNonnegative(dark: nat, n: nat)
    requires n % 2 == 1
    ensures BalanceSteps(dark, n) >= 0
    ensures var k, deviation := BalanceSteps(dark, n), Abs(dark * 20 - n * n * 10);
            k * (n * n) < deviation <= (k + 1) * (n * n)
  {
    OddSquare(n);
    var total, a := n * n, Abs(dark * 20 - n * n * 10);
    assert a != 0 by {
      assert (2 * dark - total) % 2 != 0;
      assert dark * 20 - total * 10 == 10 * (2 * dark - total);
    }
    CeilDivBracket(a, total);
  }

  lemma CeilDivBracket(a: nat, d: nat)
    requires a > 0 && d > 0
    ensures CeilDiv(a, d) >= 1
    ensures (CeilDiv(a, d) - 1) * d < a <= CeilDiv(a, d) * d
  {
    var q := (a + d - 1) / d;
    DivAtLeastOne(a + d - 1, d);
    assert a + d - 1 == q * d + (a + d - 1) % d;
  }

  lemma DivAtLeastOne(a: nat, d: nat)
    requires a >= d > 0
    ensures a / d >= 1
  {}

  // ---- Scores of known lines and grids ----

  /** A run of five scores 3, every further module 1, shorter runs nothing. */
  lemma RunScores3(n: nat)
    ensures n < 5 ==> RunScore(n) == 0
    ensures n == 5 ==> RunScore(n) == 3
    ensures n >= 5 ==> RunScore(n + 1) == RunScore(n) + 1
  {}

  lemma {:induction false} LightRuns(n: nat)
    ensures Runs(Solid(false, n)) == [n]
  {
    if n > 0 {
      LightRuns(n - 1);
      assert Solid(false, n)[..n - 1] == Solid(false, n - 1);
    }
  }

  /** A light line scores as one run. */
  lemma LightLine(n: nat, size: nat)
    ensures LineScore(Solid(false, n), size) == RunScore(n)
  {
    LightRuns(n);
    var runs := Runs(Solid(false, n));
    assert runs[..0] == [];
    assert RunScores(runs) == RunScores(runs[..0]) + RunScore(n);
    assert |Padded(runs, size)| == 1;
  }

  /** A finder-like pattern of unit n with light margins a and b: it counts once for each side on which the
      margin is at least four units, if the other is at least one. */
  lemma FinderLike(runs: seq<nat>, n: nat)
    requires |runs| == 7 && n > 0
    requires runs[1] == n && runs[2] == n && runs[3] == 3 * n && runs[4] == n && runs[5] == n
    ensures runs[0] >= 4 * n && runs[6] >= 4 * n ==> PatternsAt(runs, 0) == 2
    ensures runs[0] >= 4 * n && n <= runs[6] < 4 * n ==> PatternsAt(runs, 0) == 1
    ensures n <= runs[0] < 4 * n && runs[6] >= 4 * n ==> PatternsAt(runs, 0) == 1
    ensures (runs[0] < 4 * n && runs[6] < 4 * n) || runs[0] < n || runs[6] < n ==> PatternsAt(runs, 0) == 0
  {}

  /** Other proportions are no pattern. */
  lemma NotFinderLike(runs: seq<nat>)
    requires |runs| == 7 && !(runs[1] == runs[2] == runs[4] == runs[5] && runs[3] == 3 * runs[1] && runs[1] > 0)
    ensures PatternsAt(runs, 0) == 0
  {}

  /** A line of these runs that holds one such pattern scores 40 for each count. */
  lemma SinglePattern(line: Line, size: nat)
    requires |Padded(Runs(line), size)| == 7
    ensures LineScore(line, size) == RunScores(Runs(line)) + 40 * PatternsAt(Padded(Runs(line), size), 0)
  {
    var padded := Padded(Runs(line), size);
    assert Patterns(padded, 6) == 0;
  }

  lemma {:induction false} EqualLines(lines: seq<Line>, size: nat, score: nat)
    requires forall i :: 0 <= i < |lines| ==> LineScore(lines[i], size) == score
    ensures LineScores(lines, size) == |lines| * score
  {
    if |lines| > 0 {
      EqualLines(lines[..|lines| - 1], size, score);
      OneMoreTime(|lines| - 1, score);
    }
  }

  lemma OneMoreTime(k: nat, s: nat)
    ensures (k + 1) * s == k * s + s
  {}

  /** The score of a light grid: every row and column is one run, every 2x2 square is uniform, and the
      share of dark modules is off by 50 percent, nine steps of five beyond the first. */
  lemma LightGridScore(n: nat)
    requires n >= 5
    ensures Score(Blank(n), n) == 2 * (n * (n - 2)) + 3 * ((n - 1) * (n - 1)) + 90
  {
    var g := Blank(n);
    forall i | 0 <= i < n ensures g[i] == Solid(false, n) && Columns(g, n)[i] == Solid(false, n) {
      LightColumn(n, i);
    }
    LightLine(n, n);
    EqualLines(g, n, n - 2);
    EqualLines(Columns(g, n), n, n - 2);
    LightBlocks(n);
    LightBalance(n);
  }

  lemma LightColumn(n: nat, i: nat)
    requires i < n
    ensures Blank(n)[i] == Solid(false, n) && Columns(Blank(n), n)[i] == Solid(false, n)
  {
    forall y | 0 <= y < n ensures !Blank(n)[y][i] {
      assert !At(Blank(n), n, Cell(i, y));
    }
    forall x | 0 <= x < n ensures !Blank(n)[i][x] {
      assert !At(Blank(n), n, Cell(x, i));
    }
  }

  lemma LightBlocks(n: nat)
    requires n >= 1
    ensures |UniformBlocks(Blank(n), n)| == (n - 1) * (n - 1)
  {
    var g, blocks, square := Blank(n), UniformBlocks(Blank(n), n), FreeModules.Rect(0, n - 1, 0, n - 1);
    forall c | c in square ensures c in blocks {
      LightBlock(n, c.x, c.y);
    }
    assert blocks == square;
    FreeModules.SquareSize(n - 1);
  }

  lemma LightBlock(n: nat, x: nat, y: nat)
    requires x + 1 < n && y + 1 < n
    ensures UniformBlock(Blank(n), n, x, y) && Cell(x, y) in UniformBlocks(Blank(n), n)
  {
    assert !At(Blank(n), n, Cell(x, y)) && !At(Blank(n), n, Cell(x + 1, y));
    assert !At(Blank(n), n, Cell(x, y + 1)) && !At(Blank(n), n, Cell(x + 1, y + 1));
  }

  lemma LightBalance(n: nat)
    requires n >= 1
    ensures BalanceSteps(|DarkModules(Blank(n), n)|, n) == 9
  {
    forall x, y | 0 <= x < n && 0 <= y < n ensures !Blank(n)[y][x] {
      assert !At(Blank(n), n, Cell(x, y));
    }
    assert DarkModules(Blank(n), n) == {};
    TenTotals(n * n);
  }

  lemma TenTotals(total: nat)
    requires total >= 1
    ensures CeilDiv(Abs(0 * 20 - total * 10), total) == 10
  {
    var a := total * 10 + total - 1;
    assert a / total == 10 by {
      Quotient(a, total, 10, total - 1);
    }
  }

  lemma Quotient(a: nat, d: nat, q: nat, r: nat)
    requires d > 0 && a == q * d + r && r < d
    ensures a / d == q
  {
    var p := a / d;
    assert a == p * d + a % d;
    if p > q { MulMonotone(q + 1, p, d); }
    if p < q { MulMonotone(p + 1, q, d); }
  }
}
