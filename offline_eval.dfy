/**
  The bookkeeping of the offline A/B evaluation (scripts/offline_eval.py): for
  each question, score the answers of both variants against the gold answer
  by cosine similarity, pick the winner, count the B wins and summarise.
  The HTTP replies, the embedding model, the vector norm and the elapsed time
  are parameters.
 */
module OfflineEval {
  type Vector = seq<real>

  /** The embedding model, applied to one text. */
  type Embedder = string -> Vector

  /** The vector norm (numpy.linalg.norm). */
  type Norm = Vector -> real

  /** A reply of the query endpoint: its top-level string fields. */
  type Reply = map<string, string>

  /** One test item: a question and its gold answer. */
  datatype QA = QA(q: string, a: string)

  datatype Winner = A | B | Tie

  /** One entry of `out_list`. */
  datatype Record = Record(question: string, gold: string, answerA: string, answerB: string,
                           scoreA: real, scoreB: real, winner: Winner)

  datatype Summary = Summary(numSamples: nat, bWins: nat, durationSecs: real)

  function Dot(a: Vector, b: Vector): real
    requires |a| == |b|
  {
    if a == [] then 0.0 else Dot(a[..|a| - 1], b[..|b| - 1]) + a[|a| - 1] * b[|b| - 1]
  }

  /** All vectors the embedder returns have one dimension. */
  ghost predicate SameDim(embed: Embedder)
  {
    forall s, t :: |embed(s)| == |embed(t)|
  }

  /**
    cos (lines 13-17): 0.0 when either norm is zero, otherwise the dot product
    over the product of the norms. numpy.dot needs vectors of one length.
   */
  function Cos(a: Vector, b: Vector, norm: Norm): (r: real)
    requires norm(a) != 0.0 && norm(b) != 0.0 ==> |a| == |b|
    ensures norm(a) == 0.0 || norm(b) == 0.0 ==> r == 0.0
  {
    if norm(a) == 0.0 || norm(b) == 0.0 then 0.0 else Dot(a, b) / (norm(a) * norm(b))
  }

  /** The winner rule of lines 62-67: a strictly higher score wins, equal scores tie. */
  function Decide(scoreA: real, scoreB: real): (w: Winner)
    ensures w == A <==> scoreA > scoreB
    ensures w == B <==> scoreB > scoreA
    ensures w == Tie <==> scoreA == scoreB
  {
    if scoreA > scoreB then A else if scoreB > scoreA then B else Tie
  }

  /** resp.get("answer", "") */
  function AnswerOf(reply: Reply): (a: string)
    ensures "answer" in reply ==> a == reply["answer"]
    ensures "answer" !in reply ==> a == ""
  {
    if "answer" in reply then reply["answer"] else ""
  }

  /**
    The record of one test item (lines 46-80): it copies the question and the
    gold answer, holds both answers with their similarity to the gold answer,
    and its winner follows the two scores.
   */
  function ItemFor(qa: QA, replyA: Reply, replyB: Reply, embed: Embedder, norm: Norm): (r: Record)
    requires SameDim(embed)
    ensures r.question == qa.q && r.gold == qa.a
    ensures r.answerA == AnswerOf(replyA) && r.answerB == AnswerOf(replyB)
    ensures r.scoreA == Cos(embed(qa.a), embed(r.answerA), norm)
    ensures r.scoreB == Cos(embed(qa.a), embed(r.answerB), norm)
    ensures r.winner == Decide(r.scoreA, r.scoreB)
  {
    var ansA, ansB := AnswerOf(replyA), AnswerOf(replyB);
    var g := embed(qa.a);
    var scoreA, scoreB := Cos(g, embed(ansA), norm), Cos(g, embed(ansB), norm);
    Record(qa.q, qa.a, ansA, ansB, scoreA, scoreB, Decide(scoreA, scoreB))
  }

  /** Two replies with the same answer (or both without one) tie. */
  lemma SameAnswerTies(qa: QA, replyA: Reply, replyB: Reply, embed: Embedder, norm: Norm)
    requires SameDim(embed)
    requires AnswerOf(replyA) == AnswerOf(replyB)
    ensures ItemFor(qa, replyA, replyB, embed, norm).winner == Tie
  {
  }

  /** The number of records that B won. */
  function CountB(items: seq<Record>): (n: nat)
    ensures n <= |items|
  {
    if items == [] then 0
    else CountB(items[..|items| - 1]) + (if items[|items| - 1].winner == B then 1 else 0)
  }

  /** The positions of the records that B won. */
  function BWins(items: seq<Record>): set<int>
  {
    set k | 0 <= k < |items| && items[k].winner == B
  }

  /** One more record adds its position to the B wins exactly when B won it. */
  lemma BWinsSnoc(items: seq<Record>)
    requires items != []
    ensures BWins(items) == BWins(items[..|items| - 1]) +
      (if items[|items| - 1].winner == B then {|items| - 1} else {})
  {
    var n := |items|;
    var init := items[..n - 1];
    var last: set<int> := if items[n - 1].winner == B then {n - 1} else {};
    forall k ensures k in BWins(items) <==> k in BWins(init) + last {
      if 0 <= k < n - 1 {
        assert init[k] == items[k];
      }
    }
  }

  /** The B-win count is the number of positions whose winner is B. */
  lemma {:induction false} CountBIsCardinality(items: seq<Record>)
    ensures CountB(items) == |BWins(items)|
    decreases |items|
  {
    if items != [] {
      var init := items[..|items| - 1];
      CountBIsCardinality(init);
      BWinsSnoc(items);
      assert |items| - 1 !in BWins(init);
    }
  }

  /** With no B win anywhere, the counter stays at zero. */
  lemma {:induction false} CountBNone(items: seq<Record>)
    requires forall k :: 0 <= k < |items| ==> items[k].winner != B
    ensures CountB(items) == 0
    decreases |items|
  {
    if items != [] {
      CountBNone(items[..|items| - 1]);
    }
  }

  /** Appending the record of item `|items|` keeps the loop's invariant and counts a B win. */
  lemma EvaluateStep(data: seq<QA>, repliesA: seq<Reply>, repliesB: seq<Reply>, embed: Embedder, norm: Norm,
                     items: seq<Record>, record: Record)
    requires |repliesA| == |data| && |repliesB| == |data| && |items| < |data|
    requires SameDim(embed)
    requires forall k :: 0 <= k < |items| ==> items[k] == ItemFor(data[k], repliesA[k], repliesB[k], embed, norm)
    requires record == ItemFor(data[|items|], repliesA[|items|], repliesB[|items|], embed, norm)
    ensures forall k :: 0 <= k < |items| + 1 ==>
      (items + [record])[k] == ItemFor(data[k], repliesA[k], repliesB[k], embed, norm)
    ensures CountB(items + [record]) == CountB(items) + (if record.winner == B then 1 else 0)
  {
    assert (items + [record])[..|items|] == items;
  }

  /**
    The loop of lines 45-80 and the summary of lines 82-87: one record per test
    item, in order; `b_wins` counts the records that B won; `num_samples` is the
    number of items; the duration is the elapsed time `took`.
   */
  method Evaluate(data: seq<QA>, repliesA: seq<Reply>, repliesB: seq<Reply>, embed: Embedder, norm: Norm, took: real)
    returns (items: seq<Record>, summary: Summary)
    requires |repliesA| == |data| && |repliesB| == |data|
    requires SameDim(embed)
    ensures |items| == |data|
    ensures forall k :: 0 <= k < |data| ==> items[k] == ItemFor(data[k], repliesA[k], repliesB[k], embed, norm)
    ensures summary == Summary(|data|, CountB(items), took)
  {
    items := [];
    var ok := 0;
    for i := 0 to |data|
      invariant |items| == i
      invariant forall k :: 0 <= k < i ==> items[k] == ItemFor(data[k], repliesA[k], repliesB[k], embed, norm)
      invariant ok == CountB(items)
    {
      var q, gold := data[i].q, data[i].a;
      var ansA := AnswerOf(repliesA[i]);
      var vecG, vecA := embed(gold), embed(ansA);
      var scoreA := Cos(vecG, vecA, norm);
      var ansB := AnswerOf(repliesB[i]);
      var vecB := embed(ansB);
      var scoreB := Cos(vecG, vecB, norm);
      var winner;
      if scoreA > scoreB {
        winner := A;
      } else if scoreB > scoreA {
        winner := B;
      } else {
        winner := Tie;
      }
      if winner == B {
        ok := ok + 1;
      }
      var record := Record(q, gold, ansA, ansB, scoreA, scoreB, winner);
      assert record == ItemFor(data[i], repliesA[i], repliesB[i], embed, norm);
      EvaluateStep(data, repliesA, repliesB, embed, norm, items, record);
      items := items + [record];
    }
    summary := Summary(|data|, ok, took);
  }

  /**
    When no reply carries an "answer" field, as with the query endpoint's
    replies, which hold only "variant" and "contexts", every item is a tie and
    `b_wins` is zero.
   */
  lemma NoAnswersNoWins(data: seq<QA>, repliesA: seq<Reply>, repliesB: seq<Reply>, embed: Embedder, norm: Norm,
                        items: seq<Record>)
    requires |repliesA| == |data| && |repliesB| == |data| && |items| == |data|
    requires SameDim(embed)
    requires forall k :: 0 <= k < |data| ==> "answer" !in repliesA[k] && "answer" !in repliesB[k]
    requires forall k :: 0 <= k < |data| ==> items[k] == ItemFor(data[k], repliesA[k], repliesB[k], embed, norm)
    ensures forall k :: 0 <= k < |items| ==> items[k].winner == Tie
    ensures CountB(items) == 0
  {
    forall k | 0 <= k < |items| ensures items[k].winner == Tie {
      SameAnswerTies(data[k], repliesA[k], repliesB[k], embed, norm);
    }
    CountBNone(items);
  }
}
