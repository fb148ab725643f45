/** The answers to the requests of a write: what they leave to be written, and whether they end it. */
module Answers {
  import opened Bytes
  import opened Messages

  /** How a turn of a write is answered: with an error, or with the number of bytes accepted. */
  datatype Answer = Failed(err: errno) | Accepted(size: nat) {
    /** Accepts no more than was sent when left bytes were to be written. */
    predicate Fine(left: nat, iosize: nat) {
      Accepted? && size <= Min(left, iosize)
    }
  }

  /** What is left of count bytes after these answers. */
  function Left(count: nat, iosize: nat, answers: seq<Answer>): (left: nat)
    ensures left <= count
  {
    if answers == [] then count
    else
      var left, a := Left(count, iosize, answers[..|answers| - 1]), answers[|answers| - 1];
      if a.Fine(left, iosize) then left - a.size else left
  }

  /** The error of a write that ends with this answer. */
  function Fault(a: Answer): errno {
    if a.Failed? then a.err else EINVAL
  }

  /** Every answer accepts no more than was sent. */
  predicate AllFine(count: nat, iosize: nat, answers: seq<Answer>) {
    answers == [] ||
    var k := |answers| - 1;
    AllFine(count, iosize, answers[..k]) && answers[k].Fine(Left(count, iosize, answers[..k]), iosize)
  }

  /** The answers end the write: all is accepted, or an error or too large an answer has come. */
  predicate Ends(count: nat, iosize: nat, answers: seq<Answer>) {
    Left(count, iosize, answers) == 0 || !AllFine(count, iosize, answers)
  }

  /** One answer more. */
  lemma Append(count: nat, iosize: nat, answers: seq<Answer>, a: Answer)
    ensures var left := Left(count, iosize, answers);
      && AllFine(count, iosize, answers + [a]) == (AllFine(count, iosize, answers) && a.Fine(left, iosize))
      && Left(count, iosize, answers + [a]) == if a.Fine(left, iosize) then left - a.size else left
  {
    assert (answers + [a])[..|answers|] == answers;
  }

  // ----- what has been accepted

  lemma {:induction false} LeftMono(count: nat, iosize: nat, answers: seq<Answer>, i: nat)
    requires i <= |answers|
    ensures Left(count, iosize, answers) <= Left(count, iosize, answers[..i])
  {
    var k := |answers| - 1;
    if i <= k {
      LeftMono(count, iosize, answers[..k], i);
      assert answers[..k][..i] == answers[..i];
    } else {
      assert answers[..i] == answers;
    }
  }

  /** Answer i accepts byte x. */
  predicate Accepts(count: nat, iosize: nat, answers: seq<Answer>, i: nat, x: nat) {
    i < |answers|
    && count - Left(count, iosize, answers[..i]) <= x < count - Left(count, iosize, answers[..i + 1])
  }

  lemma AcceptsAt(count: nat, iosize: nat, answers: seq<Answer>, i: nat, x: nat)
    requires Accepts(count, iosize, answers, i, x)
    ensures var left := Left(count, iosize, answers[..i]); count - left <= x < count - left + Min(left, iosize)
  {
    assert answers[..i + 1] == answers[..i] + [answers[i]];
    Append(count, iosize, answers[..i], answers[i]);
  }

  /** The accepted ranges tile what has been accepted: each byte of it is accepted just once. */
  lemma {:induction false} AcceptedOnce(count: nat, iosize: nat, answers: seq<Answer>, x: nat) returns (i: nat)
    requires x < count - Left(count, iosize, answers)
    ensures Accepts(count, iosize, answers, i, x)
    ensures forall j: nat | Accepts(count, iosize, answers, j, x) :: j == i
    decreases |answers|
  {
    var k := |answers| - 1;
    var front := answers[..k];
    assert answers[..k + 1] == answers;
    assert forall j: nat | j <= k :: front[..j] == answers[..j];
    if x < count - Left(count, iosize, front) {
      i := AcceptedOnce(count, iosize, front, x);
    } else {
      i := k;
    }
    forall j: nat | Accepts(count, iosize, answers, j, x)
      ensures j == i
    {
      if j < k {
        LeftMono(count, iosize, front, j + 1);
        assert Accepts(count, iosize, front, j, x);
      }
    }
  }

  // ----- which daemons end a write

  function NonZero(answers: seq<Answer>): seq<Answer> {
    if answers == [] then []
    else
      var k := |answers| - 1;
      NonZero(answers[..k]) + if answers[k] == Accepted(0) then [] else [answers[k]]
  }

  /** Answers that accept nothing neither end a write nor bring it nearer to its end. */
  lemma {:induction false} ZerosChangeNothing(count: nat, iosize: nat, answers: seq<Answer>)
    ensures Left(count, iosize, NonZero(answers)) == Left(count, iosize, answers)
    ensures AllFine(count, iosize, NonZero(answers)) == AllFine(count, iosize, answers)
    ensures Ends(count, iosize, NonZero(answers)) == Ends(count, iosize, answers)
  {
    if answers != [] {
      var k := |answers| - 1;
      var front, n := answers[..k], NonZero(answers[..k]);
      ZerosChangeNothing(count, iosize, front);
      Append(count, iosize, front, answers[k]);
      Append(count, iosize, n, answers[k]);
      assert answers == front + [answers[k]] && n + [] == n;
    }
  }

  lemma {:induction false} FineTakes(count: nat, iosize: nat, answers: seq<Answer>)
    requires AllFine(count, iosize, answers) && forall a | a in answers :: a != Accepted(0)
    ensures Left(count, iosize, answers) + |answers| <= count
  {
    if answers != [] {
      var k := |answers| - 1;
      assert answers[k] in answers && forall a | a in answers[..k] :: a in answers;
      FineTakes(count, iosize, answers[..k]);
    }
  }

  lemma {:induction false} NoZeros(answers: seq<Answer>)
    ensures forall a | a in NonZero(answers) :: a != Accepted(0)
  {
    if answers != [] {
      NoZeros(answers[..|answers| - 1]);
    }
  }

  /** As many answers that accept something as there are bytes always end the write. */
  lemma ProgressEnds(count: nat, iosize: nat, answers: seq<Answer>)
    requires |NonZero(answers)| >= count
    ensures Ends(count, iosize, answers)
  {
    ZerosChangeNothing(count, iosize, answers);
    NoZeros(answers);
    if AllFine(count, iosize, answers) {
      FineTakes(count, iosize, NonZero(answers));
    }
  }

  /** The first n answers of an endless stream of them. */
  function Prefix(f: nat -> Answer, n: nat): seq<Answer> {
    if n == 0 then [] else Prefix(f, n - 1) + [f(n - 1)]
  }

  lemma PrefixFront(f: nat -> Answer, n: nat)
    requires n > 0
    ensures NonZero(Prefix(f, n)) == NonZero(Prefix(f, n - 1)) + if f(n - 1) == Accepted(0) then [] else [f(n - 1)]
  {
    var p := Prefix(f, n - 1);
    assert (p + [f(n - 1)])[..|p|] == p;
  }

  ghost predicate EndsWrite(f: nat -> Answer, iosize: nat, count: nat) {
    exists n: nat :: Ends(count, iosize, Prefix(f, n))
  }

  ghost predicate Progresses(f: nat -> Answer, m: nat) {
    exists i: nat :: i >= m && f(i) != Accepted(0)
  }

  /** Some answer is an error or accepts more than any request sends. */
  ghost predicate Breaks(f: nat -> Answer, iosize: nat) {
    exists i: nat :: !f(i).Fine(iosize, iosize)
  }

  lemma {:induction false} NonZeroGrows(f: nat -> Answer, m: nat, n: nat)
    requires m <= n
    ensures |NonZero(Prefix(f, m))| <= |NonZero(Prefix(f, n))|
  {
    if m < n {
      NonZeroGrows(f, m, n - 1);
      PrefixFront(f, n);
    }
  }

  lemma {:induction false} ManyNonZero(f: nat -> Answer, count: nat) returns (n: nat)
    requires forall m: nat :: Progresses(f, m)
    ensures |NonZero(Prefix(f, n))| >= count
  {
    n := 0;
    if count > 0 {
      var m := ManyNonZero(f, count - 1);
      assert Progresses(f, m);
      var i: nat :| i >= m && f(i) != Accepted(0);
      NonZeroGrows(f, m, i);
      PrefixFront(f, i + 1);
      n := i + 1;
    }
  }

  lemma BrokenEnds(f: nat -> Answer, iosize: nat, count: nat, i: nat)
    requires !f(i).Fine(iosize, iosize)
    ensures Ends(count, iosize, Prefix(f, i + 1))
  {
    Append(count, iosize, Prefix(f, i), f(i));
  }

  function Total(f: nat -> Answer, n: nat): nat {
    if n == 0 then 0 else Total(f, n - 1) + if f(n - 1).Accepted? then f(n - 1).size else 0
  }

  lemma {:induction false} TotalStays(f: nat -> Answer, m: nat, n: nat)
    requires !Progresses(f, m)
    ensures Total(f, n) <= Total(f, m)
    decreases if n <= m then m - n else n
  {
    if n < m {
      TotalStays(f, m, n + 1);
    } else if n > m {
      assert f(n - 1) == Accepted(0);
      TotalStays(f, m, n - 1);
    }
  }

  /** Zeros from m on, and bytes left: the write goes on. */
  lemma {:induction false} GoesOn(f: nat -> Answer, iosize: nat, m: nat, count: nat, n: nat)
    requires !Breaks(f, iosize) && !Progresses(f, m) && count == Total(f, m) + iosize + 1
    ensures AllFine(count, iosize, Prefix(f, n)) && Left(count, iosize, Prefix(f, n)) == count - Total(f, n)
    ensures Total(f, n) <= Total(f, m)
    decreases n
  {
    TotalStays(f, m, n);
    if n > 0 {
      GoesOn(f, iosize, m, count, n - 1);
      assert f(n - 1).Fine(iosize, iosize);
      Append(count, iosize, Prefix(f, n - 1), f(n - 1));
    }
  }

  /** A daemon ends every write if and only if one of its answers breaks the rules or it never stops making
      progress. */
  lemma EndsEveryWrite(f: nat -> Answer, iosize: nat)
    ensures (forall count: nat :: EndsWrite(f, iosize, count))
        <==> Breaks(f, iosize) || forall m: nat :: Progresses(f, m)
  {
    if Breaks(f, iosize) {
      var i: nat :| !f(i).Fine(iosize, iosize);
      forall count: nat
        ensures EndsWrite(f, iosize, count)
      {
        BrokenEnds(f, iosize, count, i);
      }
    } else if forall m: nat :: Progresses(f, m) {
      forall count: nat
        ensures EndsWrite(f, iosize, count)
      {
        var n := ManyNonZero(f, count);
        ProgressEnds(count, iosize, Prefix(f, n));
      }
    } else {
      var m: nat :| !Progresses(f, m);
      var count := Total(f, m) + iosize + 1;
      forall n: nat
        ensures !Ends(count, iosize, Prefix(f, n))
      {
        GoesOn(f, iosize, m, count, n);
      }
      assert !EndsWrite(f, iosize, count);
    }
  }
}
