/** The poll's matrix and counter: which comparison is asked next, how an
    answer is written into the pairwise matrix, and how many comparisons a
    poll of n options asks. */
module Ahp {
  import opened Sums
  import opened ArrayHelper
  import Calc

  /** The scores of the simple buttons: equal, slightly more, much more. */
  const Eq: real := 1.0
  const Low: real := 2.0
  const High: real := 4.0

  /** A comparison: the row and the column of a cell of the matrix. */
  datatype Pair = Pair(row: nat, col: nat)

  /** The next comparison, or None where the source returns `false`. */
  datatype Option<T> = None | Some(value: T)

  // ---------------------------------------------------------------------
  // Which comparison comes next

  /** Cell (i, j) comes before cell p in a row-major scan. */
  predicate Before(i: nat, j: nat, p: Pair) {
    i < p.row || (i == p.row && j < p.col)
  }

  /** p holds the sentinel 0 and every cell before it does not. */
  predicate IsFirstZero(m: Matrix, p: Pair) {
    && p.row < |m| && p.col < |m[p.row]| && m[p.row][p.col] == 0.0
    && forall k, l :: 0 <= k < |m| && 0 <= l < |m[k]| && Before(k, l, p) ==> m[k][l] != 0.0
  }

  /** Every comparison has been answered. */
  predicate NoZero(m: Matrix) {
    forall k, l :: 0 <= k < |m| && 0 <= l < |m[k]| ==> m[k][l] != 0.0
  }

  /** The first column at or after j whose cell holds the sentinel 0. */
  function ZeroFrom(row: seq<real>, j: nat): (r: Option<nat>)
    ensures r.Some? ==> j <= r.value < |row| && row[r.value] == 0.0
    ensures r.Some? ==> forall l :: j <= l < r.value ==> row[l] != 0.0
    ensures r.None? ==> forall l :: j <= l < |row| ==> row[l] != 0.0
    decreases |row| - j
  {
    if j >= |row| then None
    else if row[j] == 0.0 then Some(j)
    else ZeroFrom(row, j + 1)
  }

  /** The first unanswered cell in rows i, i + 1, ..., each row scanned left
      to right. */
  function NextUnansweredFrom(m: Matrix, i: nat): (r: Option<Pair>)
    ensures r.Some? ==> i <= r.value.row < |m| && r.value.col < |m[r.value.row]|
    ensures r.Some? ==> m[r.value.row][r.value.col] == 0.0
    ensures r.Some? ==> forall k, l :: i <= k < |m| && 0 <= l < |m[k]| && Before(k, l, r.value) ==> m[k][l] != 0.0
    ensures r.None? ==> forall k, l :: i <= k < |m| && 0 <= l < |m[k]| ==> m[k][l] != 0.0
    decreases |m| - i
  {
    if i >= |m| then None
    else match ZeroFrom(m[i], 0)
      case Some(j) => Some(Pair(i, j))
      case None => NextUnansweredFrom(m, i + 1)
  }

  /** The comparison the poll asks next: the first sentinel cell in
      row-major order, or None when there is none. */
  function NextUnanswered(m: Matrix): (r: Option<Pair>)
    ensures r.Some? ==> IsFirstZero(m, r.value)
    ensures r.None? <==> NoZero(m)
  {
    NextUnansweredFrom(m, 0)
  }

  /** At most one cell is the first zero. */
  lemma FirstZeroUnique(m: Matrix, p: Pair, q: Pair)
    requires IsFirstZero(m, p) && IsFirstZero(m, q)
    ensures p == q
  {
    assert !Before(p.row, p.col, q) && !Before(q.row, q.col, p);
  }

  /** Scans the matrix row by row, each row left to right, and returns the
      first cell still holding the sentinel 0, or None. */
  method GetNextQuestion(optionArray: seq<string>, resultArray: seq<array<real>>)
    returns (next: Option<Pair>)
    requires |resultArray| == |optionArray| && SquareRows(resultArray)
    ensures next.Some? ==> IsFirstZero(Cells(resultArray), next.value)
    ensures next.None? <==> NoZero(Cells(resultArray))
    ensures next == NextUnanswered(Cells(resultArray))
  {
    ghost var m := Cells(resultArray);
    var i := 0;
    while i < |optionArray|
      invariant 0 <= i <= |optionArray|
      invariant forall k, l :: 0 <= k < i && 0 <= l < |optionArray| ==> m[k][l] != 0.0
    {
      var j := 0;
      while j < |optionArray|
        invariant 0 <= j <= |optionArray|
        invariant forall l :: 0 <= l < j ==> m[i][l] != 0.0
      {
        if resultArray[i][j] == 0.0 {
          next := Some(Pair(i, j));
          assert IsFirstZero(m, next.value);
          FirstZeroUnique(m, next.value, NextUnanswered(m).value);
          return;
        }
        j := j + 1;
      }
      i := i + 1;
    }
    next := None;
  }

  // ---------------------------------------------------------------------
  // Recording an answer

  /** The matrix after recordVote(pair, score): cell (row, col) is set to the
      score, then cell (col, row) to its reciprocal. */
  function AfterVote(m: Matrix, p: Pair, score: real): (r: Matrix)
    requires Square(m) && p.row < |m| && p.col < |m| && score != 0.0
    ensures |r| == |m| && Square(r)
    ensures r[p.col][p.row] == 1.0 / score
    ensures p.row != p.col ==> r[p.row][p.col] == score
    ensures forall i, j :: 0 <= i < |m| && 0 <= j < |m| && !(i == p.row && j == p.col) && !(i == p.col && j == p.row) ==>
              r[i][j] == m[i][j]
  {
    var written := m[p.row := m[p.row][p.col := score]];
    written[p.col := written[p.col][p.row := 1.0 / score]]
  }

  /** What the poll keeps true of cell (i, j): it is not negative, it is
      unanswered exactly when its mirror is, an answered cell is the
      reciprocal of its mirror, and a diagonal cell is 1. */
  predicate CellReciprocal(m: Matrix, i: nat, j: nat)
    requires Square(m) && i < |m| && j < |m|
  {
    && m[i][j] >= 0.0
    && (m[i][j] == 0.0 <==> m[j][i] == 0.0)
    && (m[i][j] != 0.0 ==> m[i][j] * m[j][i] == 1.0)
    && (i == j ==> m[i][j] == 1.0)
  }

  /** The invariant of every matrix the poll builds. */
  predicate Reciprocal(m: Matrix) {
    Square(m) && forall i, j :: 0 <= i < |m| && 0 <= j < |m| ==> CellReciprocal(m, i, j)
  }

  lemma ReciprocalOfPositive(x: real)
    requires x > 0.0
    ensures 1.0 / x > 0.0 && x * (1.0 / x) == 1.0 && (1.0 / x) * x == 1.0
  {
  }

  /** A reciprocal matrix meets the calculator's precondition: no negative
      cell and 1 on the diagonal. */
  lemma ReciprocalIsWellFormed(m: Matrix)
    requires Reciprocal(m)
    ensures Calc.WellFormed(m)
  {
    forall i, j | 0 <= i < |m| && 0 <= j < |m|
      ensures m[i][j] >= 0.0
    {
      assert CellReciprocal(m, i, j);
    }
    forall i | 0 <= i < |m|
      ensures m[i][i] == 1.0
    {
      assert CellReciprocal(m, i, i);
    }
  }

  /** The set-up matrix is reciprocal. */
  lemma IdentityIsReciprocal(n: nat)
    ensures Reciprocal(Identity(n))
  {
    var m := Identity(n);
    forall i, j | 0 <= i < n && 0 <= j < n
      ensures CellReciprocal(m, i, j)
    {
    }
  }

  /** Cell (i, j) after a positive answer to an off-diagonal pair of a
      reciprocal matrix. */
  lemma AfterVoteCell(m: Matrix, p: Pair, score: real, i: nat, j: nat)
    requires Reciprocal(m) && p.row < |m| && p.col < |m| && p.row != p.col && score > 0.0
    requires i < |m| && j < |m|
    ensures CellReciprocal(AfterVote(m, p, score), i, j)
  {
    var r := AfterVote(m, p, score);
    if i == p.row && j == p.col {
      assert r[i][j] == score && r[j][i] == 1.0 / score;
      ReciprocalOfPositive(score);
    } else if i == p.col && j == p.row {
      assert r[i][j] == 1.0 / score && r[j][i] == score;
      ReciprocalOfPositive(score);
    } else {
      assert r[i][j] == m[i][j] && r[j][i] == m[j][i];
      assert CellReciprocal(m, i, j);
    }
  }

  /** A positive answer to an off-diagonal pair keeps the matrix reciprocal. */
  lemma AfterVoteKeepsReciprocal(m: Matrix, p: Pair, score: real)
    requires Reciprocal(m) && p.row < |m| && p.col < |m| && p.row != p.col && score > 0.0
    ensures Reciprocal(AfterVote(m, p, score))
  {
    var r := AfterVote(m, p, score);
    forall i, j | 0 <= i < |m| && 0 <= j < |m|
      ensures CellReciprocal(r, i, j)
    {
      AfterVoteCell(m, p, score, i, j);
    }
  }

  /** In a reciprocal matrix the comparison asked next lies above the
      diagonal: its mirror is unanswered too and would come first. */
  lemma NextUnansweredAbove(m: Matrix)
    requires Reciprocal(m) && NextUnanswered(m).Some?
    ensures NextUnanswered(m).value.row < NextUnanswered(m).value.col
    ensures m[NextUnanswered(m).value.col][NextUnanswered(m).value.row] == 0.0
  {
    var p := NextUnanswered(m).value;
    assert CellReciprocal(m, p.row, p.row);
    assert CellReciprocal(m, p.row, p.col);
  }

  // ---------------------------------------------------------------------
  // Counting the unanswered cells

  /** The number of sentinel cells in a row. */
  function ZerosIn(s: seq<real>): nat {
    if s == [] then 0 else ZerosIn(s[..|s| - 1]) + (if s[|s| - 1] == 0.0 then 1 else 0)
  }

  /** The number of sentinel cells in the matrix. */
  function Unanswered(m: Matrix): nat {
    if m == [] then 0 else Unanswered(m[..|m| - 1]) + ZerosIn(m[|m| - 1])
  }

  lemma {:induction false} ZerosInUpdate(s: seq<real>, k: nat, x: real)
    requires k < |s|
    ensures ZerosIn(s[k := x]) + (if s[k] == 0.0 then 1 else 0) == ZerosIn(s) + (if x == 0.0 then 1 else 0)
  {
    var last := |s| - 1;
    if k < last {
      assert s[k := x][..last] == s[..last][k := x];
      ZerosInUpdate(s[..last], k, x);
    } else {
      assert s[k := x][..last] == s[..last];
    }
  }

  lemma {:induction false} UnansweredUpdate(m: Matrix, i: nat, row: seq<real>)
    requires i < |m|
    ensures Unanswered(m[i := row]) + ZerosIn(m[i]) == Unanswered(m) + ZerosIn(row)
  {
    var last := |m| - 1;
    if i < last {
      assert m[i := row][..last] == m[..last][i := row];
      UnansweredUpdate(m[..last], i, row);
    } else {
      assert m[i := row][..last] == m[..last];
    }
  }

  /** No sentinel in the row exactly when its count is 0. */
  lemma {:induction false} ZerosInNone(s: seq<real>)
    ensures ZerosIn(s) == 0 <==> forall l :: 0 <= l < |s| ==> s[l] != 0.0
  {
    if s != [] {
      ZerosInNone(s[..|s| - 1]);
    }
  }

  /** Every comparison is answered exactly when the count of sentinels is 0. */
  lemma {:induction false} UnansweredNone(m: Matrix)
    ensures Unanswered(m) == 0 <==> NoZero(m)
  {
    if m != [] {
      var last := |m| - 1;
      UnansweredNone(m[..last]);
      ZerosInNone(m[last]);
      assert NoZero(m) <==> NoZero(m[..last]) && forall l :: 0 <= l < |m[last]| ==> m[last][l] != 0.0;
    }
  }

  /** Answering an unanswered off-diagonal pair removes exactly two sentinels. */
  lemma AfterVoteAnswersTwo(m: Matrix, p: Pair, score: real)
    requires Square(m) && p.row < |m| && p.col < |m| && p.row != p.col && score != 0.0
    requires m[p.row][p.col] == 0.0 && m[p.col][p.row] == 0.0
    ensures Unanswered(AfterVote(m, p, score)) + 2 == Unanswered(m)
  {
    var written := m[p.row := m[p.row][p.col := score]];
    ZerosInUpdate(m[p.row], p.col, score);
    UnansweredUpdate(m, p.row, m[p.row][p.col := score]);
    assert written[p.col] == m[p.col];
    assert 1.0 / score != 0.0;
    ZerosInUpdate(written[p.col], p.row, 1.0 / score);
    UnansweredUpdate(written, p.col, written[p.col][p.row := 1.0 / score]);
  }

  /** A row that is 0 everywhere except a single 1 at column i. */
  lemma {:induction false} UnitRowZeros(s: seq<real>, i: nat)
    requires forall j :: 0 <= j < |s| ==> s[j] == if j == i then 1.0 else 0.0
    ensures ZerosIn(s) == |s| - (if i < |s| then 1 else 0)
  {
    if s != [] {
      UnitRowZeros(s[..|s| - 1], i);
    }
  }

  /** Rows of c sentinels each give |m| * c sentinels. */
  lemma {:induction false} UnansweredUniform(m: Matrix, c: nat)
    requires forall k :: 0 <= k < |m| ==> ZerosIn(m[k]) == c
    ensures Unanswered(m) == |m| * c
  {
    if m != [] {
      var last := |m| - 1;
      UnansweredUniform(m[..last], c);
      assert |m| * c == last * c + c;
    }
  }

  /** The set-up matrix of n options has n * n - n unanswered cells. */
  lemma IdentityUnanswered(n: nat)
    ensures Unanswered(Identity(n)) == n * n - n
  {
    if n > 0 {
      var m := Identity(n);
      forall k | 0 <= k < n
        ensures ZerosIn(m[k]) == n - 1
      {
        UnitRowZeros(m[k], k);
      }
      UnansweredUniform(m, n - 1);
      assert n * (n - 1) == n * n - n;
    }
  }

  // ---------------------------------------------------------------------
  // The number of comparisons

  lemma {:induction false} ConsecutiveProductEven(n: nat)
    ensures n * n >= n && (n * n - n) % 2 == 0
  {
    if n > 0 {
      ConsecutiveProductEven(n - 1);
      assert n * n - n == ((n - 1) * (n - 1) - (n - 1)) + 2 * (n - 1);
    }
  }

  /** The number of comparisons a poll of n options asks, (n * n - n) / 2,
      which is a whole number. */
  function QuestionTotal(n: nat): (t: nat)
    ensures 2 * t == n * n - n
  {
    ConsecutiveProductEven(n);
    (n * n - n) / 2
  }

  // ---------------------------------------------------------------------
  // The buttons

  /** An answer to the displayed pair: which option is preferred, and how
      strongly. An equal answer is given as a left-hand one. */
  datatype Answer = Answer(preferSecond: bool, score: real)

  /** The five simple buttons. */
  datatype Button = LeftMuchMore | LeftSlightlyMore | Same | RightSlightlyMore | RightMuchMore

  /** The answer a simple button gives. */
  function SimpleAnswer(b: Button): (a: Answer)
    ensures a.score > 0.0
    ensures a.preferSecond <==> b == RightSlightlyMore || b == RightMuchMore
    ensures a.score == Eq <==> b == Same
    ensures a.score == High <==> b == LeftMuchMore || b == RightMuchMore
  {
    match b
    case LeftMuchMore => Answer(false, High)
    case LeftSlightlyMore => Answer(false, Low)
    case Same => Answer(false, Eq)
    case RightSlightlyMore => Answer(true, Low)
    case RightMuchMore => Answer(true, High)
  }

  /** The pair an answer is recorded on: the displayed pair for a left-hand
      answer, the reversed pair for a right-hand one. */
  function Oriented(q: Pair, a: Answer): (p: Pair)
    ensures p == q || p == Pair(q.col, q.row)
    ensures {p.row, p.col} == {q.row, q.col}
    ensures p.row == q.row <==> !a.preferSecond || q.row == q.col
  {
    if a.preferSecond then Pair(q.col, q.row) else q
  }

  // ---------------------------------------------------------------------
  // A whole poll

  /** The state a sequence of answers acts on. */
  datatype Session = Session(votes: Matrix, questionIndex: int)

  predicate PositiveScores(answers: seq<Answer>) {
    forall k :: 0 <= k < |answers| ==> answers[k].score > 0.0
  }

  /** The session after answer `a` to the displayed pair `q`: the answer is
      recorded on the oriented pair and the question index advances. The
      displayed comparison is then answered both ways, and no answered
      comparison becomes unanswered. */
  function Answered(s: Session, q: Pair, a: Answer): (r: Session)
    requires Square(s.votes) && q.row < |s.votes| && q.col < |s.votes| && a.score > 0.0
    ensures Square(r.votes) && |r.votes| == |s.votes| && r.questionIndex == s.questionIndex + 1
    ensures r.votes[q.row][q.col] != 0.0 && r.votes[q.col][q.row] != 0.0
    ensures forall i, j :: 0 <= i < |s.votes| && 0 <= j < |s.votes| && s.votes[i][j] != 0.0 ==> r.votes[i][j] != 0.0
  {
    ReciprocalOfPositive(a.score);
    Session(AfterVote(s.votes, Oriented(q, a), a.score), s.questionIndex + 1)
  }

  /** The poll after the given answers: each answer is recorded on the pair
      then displayed, and the question index advances; once no pair is left
      no question is displayed and further answers have no effect. The index
      advances by at most one per answer, and by exactly one per answer
      while a comparison is still open at the end; answered comparisons stay
      answered. */
  function Replay(s: Session, answers: seq<Answer>): (r: Session)
    requires Square(s.votes) && PositiveScores(answers)
    ensures Square(r.votes) && |r.votes| == |s.votes|
    ensures s.questionIndex <= r.questionIndex <= s.questionIndex + |answers|
    ensures NextUnanswered(r.votes).Some? ==> r.questionIndex == s.questionIndex + |answers|
    ensures forall i, j :: 0 <= i < |s.votes| && 0 <= j < |s.votes| && s.votes[i][j] != 0.0 ==> r.votes[i][j] != 0.0
    decreases |answers|
  {
    if answers == [] then s
    else match NextUnanswered(s.votes)
      case None => s
      case Some(q) => Replay(Answered(s, q, answers[0]), answers[1..])
  }

  /** The comparisons displayed while the answers are recorded, in the order
      they are displayed: one per question the index counts. */
  function Asked(s: Session, answers: seq<Answer>): (ps: seq<Pair>)
    requires Square(s.votes) && PositiveScores(answers)
    ensures |ps| == Replay(s, answers).questionIndex - s.questionIndex
    decreases |answers|
  {
    if answers == [] then []
    else match NextUnanswered(s.votes)
      case None => []
      case Some(q) => [q] + Asked(Answered(s, q, answers[0]), answers[1..])
  }

  /** Every pair of `ps` lies above the diagonal of `m` and is unanswered. */
  predicate OpenIn(m: Matrix, ps: seq<Pair>)
    requires Square(m)
  {
    forall k :: 0 <= k < |ps| ==> ps[k].row < ps[k].col < |m| && m[ps[k].row][ps[k].col] == 0.0
  }

  /** Every pair of `ps` is answered in `m`. */
  predicate ClosedIn(m: Matrix, ps: seq<Pair>)
    requires Square(m)
  {
    forall k :: 0 <= k < |ps| ==> ps[k].row < |m| && ps[k].col < |m| && m[ps[k].row][ps[k].col] != 0.0
  }

  /** No pair occurs twice. */
  predicate Distinct(ps: seq<Pair>) {
    forall k, l :: 0 <= k < l < |ps| ==> ps[k] != ps[l]
  }

  /** One answer to the displayed pair of a reciprocal matrix with 2 * z
      unanswered cells: the matrix stays reciprocal with 2 * (z - 1) of them. */
  lemma AnswerStep(m: Matrix, a: Answer, z: nat)
    requires Reciprocal(m) && a.score > 0.0 && Unanswered(m) == 2 * z
    requires NextUnanswered(m).Some?
    ensures var p := Oriented(NextUnanswered(m).value, a);
            && p.row < |m| && p.col < |m|
            && Reciprocal(AfterVote(m, p, a.score))
            && z > 0 && Unanswered(AfterVote(m, p, a.score)) == 2 * (z - 1)
  {
    var q := NextUnanswered(m).value;
    NextUnansweredAbove(m);
    var p := Oriented(q, a);
    AfterVoteKeepsReciprocal(m, p, a.score);
    AfterVoteAnswersTwo(m, p, a.score);
  }

  /** The poll ends in `r` after k answers from `start`, which had 2 * z
      unanswered cells: min(k, z) comparisons were asked, the matrix is
      still reciprocal, and no comparison is left exactly when k >= z. */
  predicate Outcome(start: Session, r: Session, k: nat, z: nat) {
    var asked := if k < z then k else z;
    && Reciprocal(r.votes)
    && Unanswered(r.votes) == 2 * (z - asked)
    && r.questionIndex == start.questionIndex + asked
    && (NextUnanswered(r.votes).None? <==> k >= z)
  }

  /** With no answer left, or no comparison left to ask, the poll stays
      where it is. */
  lemma ReplayStops(s: Session, answers: seq<Answer>, z: nat)
    requires Reciprocal(s.votes) && PositiveScores(answers) && Unanswered(s.votes) == 2 * z
    requires answers == [] || NextUnanswered(s.votes).None?
    ensures Replay(s, answers) == s
    ensures Outcome(s, s, |answers|, z)
  {
    UnansweredNone(s.votes);
  }

  /** The first answer is recorded on the displayed pair: the session moves
      on to a reciprocal matrix with two fewer unanswered cells. */
  lemma ReplayStep(s: Session, answers: seq<Answer>, z: nat) returns (next: Session)
    requires Reciprocal(s.votes) && PositiveScores(answers) && Unanswered(s.votes) == 2 * z
    requires answers != [] && NextUnanswered(s.votes).Some?
    ensures z > 0 && Reciprocal(next.votes) && Unanswered(next.votes) == 2 * (z - 1)
    ensures next.questionIndex == s.questionIndex + 1
    ensures PositiveScores(answers[1..])
    ensures Replay(s, answers) == Replay(next, answers[1..])
  {
    var a := answers[0];
    AnswerStep(s.votes, a, z);
    next := Answered(s, NextUnanswered(s.votes).value, a);
  }

  /** One more answer, one more comparison asked. */
  lemma OutcomeShift(s: Session, next: Session, r: Session, k: nat, z: nat)
    requires k > 0 && z > 0 && next.questionIndex == s.questionIndex + 1
    requires Outcome(next, r, k - 1, z - 1)
    ensures Outcome(s, r, k, z)
  {
  }

  /** From a reciprocal matrix with 2 * z unanswered cells, the poll asks
      min(|answers|, z) comparisons, keeps the matrix reciprocal and stops
      asking exactly when the answers cover all z. */
  lemma {:induction false} ReplayOutcome(s: Session, answers: seq<Answer>, z: nat)
    requires Reciprocal(s.votes) && PositiveScores(answers) && Unanswered(s.votes) == 2 * z
    ensures Outcome(s, Replay(s, answers), |answers|, z)
    decreases |answers|
  {
    if answers == [] || NextUnanswered(s.votes).None? {
      ReplayStops(s, answers, z);
    } else {
      var next := ReplayStep(s, answers, z);
      ReplayOutcome(next, answers[1..], z - 1);
      OutcomeShift(s, next, Replay(s, answers), |answers|, z);
    }
  }

  /** The comparisons a reciprocal matrix displays lie above the diagonal,
      were unanswered at the start, are answered at the end, and none is
      displayed twice. */
  lemma {:induction false} AskedPairs(s: Session, answers: seq<Answer>)
    requires Reciprocal(s.votes) && PositiveScores(answers)
    ensures OpenIn(s.votes, Asked(s, answers))
    ensures ClosedIn(Replay(s, answers).votes, Asked(s, answers))
    ensures Distinct(Asked(s, answers))
    decreases |answers|
  {
    if answers != [] && NextUnanswered(s.votes).Some? {
      var q := NextUnanswered(s.votes).value;
      var next := AskedStep(s, answers);
      AskedPairs(next, answers[1..]);
      AskedCons(s.votes, next.votes, Replay(next, answers[1..]).votes, q, Asked(next, answers[1..]));
    }
  }

  /** The first answer keeps the matrix reciprocal, and the displayed pair
      lies above the diagonal. */
  lemma AskedStep(s: Session, answers: seq<Answer>) returns (next: Session)
    requires Reciprocal(s.votes) && PositiveScores(answers)
    requires answers != [] && NextUnanswered(s.votes).Some?
    ensures var q := NextUnanswered(s.votes).value;
            && q.row < q.col < |s.votes| && s.votes[q.row][q.col] == 0.0
            && next == Answered(s, q, answers[0])
            && Reciprocal(next.votes) && PositiveScores(answers[1..])
            && Asked(s, answers) == [q] + Asked(next, answers[1..])
            && Replay(s, answers) == Replay(next, answers[1..])
  {
    var q := NextUnanswered(s.votes).value;
    NextUnansweredAbove(s.votes);
    AfterVoteKeepsReciprocal(s.votes, Oriented(q, answers[0]), answers[0].score);
    next := Answered(s, q, answers[0]);
  }

  /** Putting the displayed pair in front of the pairs asked after it. */
  lemma AskedCons(m: Matrix, m1: Matrix, r: Matrix, q: Pair, tail: seq<Pair>)
    requires Square(m) && Square(m1) && Square(r) && |m1| == |m| && |r| == |m|
    requires q.row < q.col < |m| && m[q.row][q.col] == 0.0 && m1[q.row][q.col] != 0.0
    requires forall i, j :: 0 <= i < |m| && 0 <= j < |m| && m[i][j] != 0.0 ==> m1[i][j] != 0.0
    requires forall i, j :: 0 <= i < |m| && 0 <= j < |m| && m1[i][j] != 0.0 ==> r[i][j] != 0.0
    requires OpenIn(m1, tail) && ClosedIn(r, tail) && Distinct(tail)
    ensures OpenIn(m, [q] + tail) && ClosedIn(r, [q] + tail) && Distinct([q] + tail)
  {
    var ps := [q] + tail;
    forall k | 0 <= k < |ps|
      ensures ps[k].row < ps[k].col < |m| && m[ps[k].row][ps[k].col] == 0.0
    {
      if k > 0 {
        assert ps[k] == tail[k - 1];
      }
    }
    forall k | 0 <= k < |ps|
      ensures ps[k].row < |r| && ps[k].col < |r| && r[ps[k].row][ps[k].col] != 0.0
    {
      if k > 0 {
        assert ps[k] == tail[k - 1];
      }
    }
    forall k, l | 0 <= k < l < |ps|
      ensures ps[k] != ps[l]
    {
      assert ps[l] == tail[l - 1];
      if k > 0 {
        assert ps[k] == tail[k - 1];
      }
    }
  }

  /** From a reciprocal matrix with 2 * z unanswered cells, the poll asks
      min(|answers|, z) comparisons, keeps the matrix reciprocal and stops
      asking exactly when the answers cover all z; the comparisons it
      displays lie above the diagonal, were open at the start, are answered
      at the end, and none is displayed twice. */
  lemma ReplayAsksEachPairOnce(s: Session, answers: seq<Answer>, z: nat)
    requires Reciprocal(s.votes) && PositiveScores(answers) && Unanswered(s.votes) == 2 * z
    ensures Outcome(s, Replay(s, answers), |answers|, z)
    ensures |Asked(s, answers)| == if |answers| < z then |answers| else z
    ensures OpenIn(s.votes, Asked(s, answers)) && Distinct(Asked(s, answers))
    ensures ClosedIn(Replay(s, answers).votes, Asked(s, answers))
  {
    ReplayOutcome(s, answers, z);
    AskedPairs(s, answers);
  }

  /** A poll of n options asks exactly QuestionTotal(n) comparisons: after k
      answers it has asked min(k, QuestionTotal(n)) distinct pairs above the
      diagonal, its question index is 1 more than that, and it has no next
      comparison exactly when k reaches QuestionTotal(n). The finished matrix
      meets the calculator's precondition. */
  lemma PollAsksQuestionTotal(n: nat, answers: seq<Answer>)
    requires PositiveScores(answers)
    ensures var start := Session(Identity(n), 1);
            var r := Replay(start, answers);
            var asked := if |answers| < QuestionTotal(n) then |answers| else QuestionTotal(n);
            && r.questionIndex == 1 + asked
            && Unanswered(r.votes) == 2 * (QuestionTotal(n) - asked)
            && (NextUnanswered(r.votes).None? <==> |answers| >= QuestionTotal(n))
            && Reciprocal(r.votes)
            && Calc.WellFormed(r.votes)
            && |Asked(start, answers)| == asked
            && OpenIn(Identity(n), Asked(start, answers)) && Distinct(Asked(start, answers))
  {
    IdentityIsReciprocal(n);
    IdentityUnanswered(n);
    var start := Session(Identity(n), 1);
    ReplayAsksEachPairOnce(start, answers, QuestionTotal(n));
    assert Outcome(start, Replay(start, answers), |answers|, QuestionTotal(n));
    ReciprocalIsWellFormed(Replay(start, answers).votes);
  }

  /** A completed matrix (no comparison left) of at least three options has
      an average eigenvalue of at least n and a consistency ratio that is
      not negative. */
  lemma CompletedRatioNonNegative(m: Matrix)
    requires Reciprocal(m) && NoZero(m) && 3 <= |m| <= |Calc.ConsistencyIndex|
    ensures Calc.WellFormed(m)
    ensures var p := Calc.PrioritiesOf(m);
            p.avgEigenValue >= |m| as real && p.consistencyRatio >= 0.0
  {
    ReciprocalIsWellFormed(m);
    forall i, j | 0 <= i < |m| && 0 <= j < |m|
      ensures m[i][j] > 0.0
    {
      assert CellReciprocal(m, i, j);
    }
    forall i, j | 0 <= i < |m| && 0 <= j < |m|
      ensures m[i][j] * m[j][i] == 1.0
    {
      assert CellReciprocal(m, i, j);
    }
    Calc.CompletedRatioNonNegative(m);
  }

  /** Once a poll of 3 to 10 options has an answer for every comparison, its
      consistency ratio is not negative. */
  lemma FinishedPollRatioNonNegative(n: nat, answers: seq<Answer>)
    requires PositiveScores(answers) && 3 <= n <= |Calc.ConsistencyIndex|
    requires |answers| >= QuestionTotal(n)
    ensures var m := Replay(Session(Identity(n), 1), answers).votes;
            Calc.WellFormed(m) && |m| == n && Calc.PrioritiesOf(m).consistencyRatio >= 0.0
  {
    var r := Replay(Session(Identity(n), 1), answers);
    PollAsksQuestionTotal(n, answers);
    CompletedRatioNonNegative(r.votes);
  }

  // ---------------------------------------------------------------------
  // The poll object

  /** The poll's matrix and counters, updated in place as answers arrive. */
  class Poll {
    var optionArray: seq<string>
    var resultArray: seq<array<real>>
    var questionIndex: int
    var questionTotal: int

    /** One row per option, each as long as the number of options, no two
        rows the same array. A poll starts in two steps: the constructor gives
        the fields their declared defaults (no rows yet, so Valid() holds
        only for an empty option list), and Valid() holds for every option
        list once SetUpResultArray has built the matrix, as startPoll does. */
    ghost predicate Valid()
      reads this, resultArray
    {
      |resultArray| == |optionArray| && SquareRows(resultArray) && DistinctRows(resultArray)
    }

    /** The matrix the rows currently hold. */
    ghost function Votes(): Matrix
      reads this, resultArray
    {
      Cells(resultArray)
    }

    /** The fields' initial values, with the options a poll is started with;
        the matrix is built afterwards by SetUpResultArray. */
    constructor(options: seq<string>)
      ensures optionArray == options && resultArray == []
      ensures questionIndex == 1 && questionTotal == 0
    {
      optionArray := options;
      resultArray := [];
      questionIndex := 1;
      questionTotal := 0;
    }

    /** A fresh matrix for the options: 1 on the diagonal, every comparison
        unanswered. */
    method SetUpResultArray()
      modifies this`resultArray
      ensures Valid() && Votes() == Identity(|optionArray|)
      ensures forall i :: 0 <= i < |resultArray| ==> fresh(resultArray[i])
    {
      resultArray := SetUpSquareArray(|optionArray|);
    }

    /** The question counter starts at 1 of (n * n - n) / 2. */
    method InitializeQuestionCount()
      modifies this`questionIndex, this`questionTotal
      ensures questionIndex == 1 && questionTotal == QuestionTotal(|optionArray|)
      ensures 2 * questionTotal == |optionArray| * |optionArray| - |optionArray|
    {
      questionIndex := 1;
      var n := |optionArray|;
      ConsecutiveProductEven(n);
      questionTotal := (n * n - n) / 2;
    }

    /** Writes the score into (row, col) and its reciprocal into (col, row),
        changing no other cell, and advances the question index. */
    method RecordVote(pair: Pair, score: real)
      requires Valid() && pair.row < |resultArray| && pair.col < |resultArray| && score != 0.0
      modifies this`questionIndex, resultArray[pair.row], resultArray[pair.col]
      ensures Valid()
      ensures Votes() == AfterVote(old(Votes()), pair, score)
      ensures questionIndex == old(questionIndex) + 1
    {
      ghost var before := Votes();
      resultArray[pair.row][pair.col] := score;
      resultArray[pair.col][pair.row] := 1.0 / score;
      questionIndex := questionIndex + 1;
      ghost var after := AfterVote(before, pair, score);
      forall i | 0 <= i < |resultArray|
        ensures resultArray[i][..] == after[i]
      {
        if i != pair.row && i != pair.col {
          assert resultArray[i][..] == before[i];
        }
      }
      assert Votes() == after;
    }
  }
}
