/**
 * The personality quiz of quest/app.js: ten questions drawn at random from the role's pool,
 * each answer adding one point to the category of the chosen option, and the result card of
 * the category with the highest score (the lowest id on a tie).
 */
module Quest {
  import opened Wrappers

  /** How many questions one quiz asks. */
  const QuizLength: nat := 10

  /** A result card of the role's results file; `key` is its category. */
  datatype ResultCard = ResultCard(key: string, id: int, name: string)
  datatype QOption = QOption(text: string, cat: string)
  datatype Question = Question(text: string, options: seq<QOption>)
  /** What is written to local storage once a result is shown (its timestamp is not modelled). */
  datatype SavedResult = SavedResult(role: Option<string>, resultId: int)

  // ---------------------------------------------------------------------------------
  // The progress bar

  function Clamp01(x: real): real {
    if x < 0.0 then 0.0 else if x > 1.0 then 1.0 else x
  }

  /** `setTopProgress`: the bar's width in percent for question `cur` of `total`. */
  function ProgressPercent(cur: int, total: int): (pct: real)
    ensures 0.0 <= pct <= 100.0
    ensures total <= 0 ==> pct == 0.0
    ensures 0 < total && 0 <= cur <= total ==> pct == 100.0 * (cur as real) / (total as real)
    ensures 0 < total && total <= cur ==> pct == 100.0
    ensures cur <= 0 ==> pct == 0.0
  {
    if total > 0 then Clamp01((cur as real) / (total as real)) * 100.0 else 0.0
  }

  /** The bar never shrinks as the quiz moves on. */
  lemma {:induction false} ProgressMonotone(a: int, b: int, total: int)
    requires a <= b
    ensures ProgressPercent(a, total) <= ProgressPercent(b, total)
  {
    if total > 0 {
      var t := total as real;
      assert (a as real) / t <= (b as real) / t by {
        assert (b as real) / t - (a as real) / t == ((b - a) as real) / t;
      }
    }
  }

  // ---------------------------------------------------------------------------------
  // Shuffling

  /** `Math.floor(r * (i + 1))` for a draw `r` of `Math.random()`: a position in `0..i`. */
  function DrawIndex(r: real, i: nat): (j: nat)
    requires 0.0 <= r < 1.0
    ensures j <= i
  {
    DrawBelow(r, i);
    (r * ((i + 1) as real)).Floor
  }

  lemma {:induction false} DrawBelow(r: real, i: nat)
    requires 0.0 <= r < 1.0
    ensures 0.0 <= r * ((i + 1) as real) < (i + 1) as real
  {
    var n := (i + 1) as real;
    assert n - r * n == (1.0 - r) * n;
  }

  /** The random numbers a shuffle of `n` elements uses: `draws[i]` on the step for position `i`. */
  predicate Draws(draws: seq<real>, n: nat) {
    n <= |draws| && forall k :: 0 <= k < |draws| ==> 0.0 <= draws[k] < 1.0
  }

  function Swap<T>(a: seq<T>, i: nat, j: nat): (b: seq<T>)
    requires i < |a| && j < |a|
    ensures |b| == |a| && b[i] == a[j] && b[j] == a[i]
    ensures forall k :: 0 <= k < |a| && k != i && k != j ==> b[k] == a[k]
  {
    a[i := a[j]][j := a[i]]
  }

  /** The Fisher–Yates steps for positions `i` down to 1, applied to `a`. */
  function ShuffledFrom<T>(a: seq<T>, draws: seq<real>, i: nat): seq<T>
    requires i < |a| && Draws(draws, |a|)
    decreases i
  {
    if i == 0 then a else ShuffledFrom(Swap(a, i, DrawIndex(draws[i], i)), draws, i - 1)
  }

  /** What `shuffle(arr)` returns for the draws `draws`. */
  function FisherYates<T>(a: seq<T>, draws: seq<real>): seq<T>
    requires Draws(draws, |a|)
  {
    if |a| == 0 then a else ShuffledFrom(a, draws, |a| - 1)
  }

  lemma {:induction false} SwapPermutes<T>(a: seq<T>, i: nat, j: nat)
    requires i < |a| && j < |a|
    ensures multiset(Swap(a, i, j)) == multiset(a)
  {
    var b := a[i := a[j]];
    assert multiset(b) == multiset(a) - multiset{a[i]} + multiset{a[j]};
    assert b[j] == (if i == j then a[i] else a[j]);
    assert multiset(b[j := a[i]]) == multiset(b) - multiset{b[j]} + multiset{a[i]};
  }

  lemma {:induction false} ShuffledFromPermutes<T>(a: seq<T>, draws: seq<real>, i: nat)
    requires i < |a| && Draws(draws, |a|)
    ensures |ShuffledFrom(a, draws, i)| == |a|
    ensures multiset(ShuffledFrom(a, draws, i)) == multiset(a)
    decreases i
  {
    if i > 0 {
      var j := DrawIndex(draws[i], i);
      SwapPermutes(a, i, j);
      ShuffledFromPermutes(Swap(a, i, j), draws, i - 1);
    }
  }

  /** A shuffle rearranges the elements: the same ones, as often as before. */
  lemma {:induction false} FisherYatesPermutes<T>(a: seq<T>, draws: seq<real>)
    requires Draws(draws, |a|)
    ensures |FisherYates(a, draws)| == |a|
    ensures multiset(FisherYates(a, draws)) == multiset(a)
  {
    if |a| > 0 {
      ShuffledFromPermutes(a, draws, |a| - 1);
    }
  }

  /** `shuffle(arr)`: Fisher–Yates on a copy of `arr`, swapping from the last position down. */
  method Shuffle<T>(arr: seq<T>, draws: seq<real>) returns (r: seq<T>)
    requires Draws(draws, |arr|)
    ensures r == FisherYates(arr, draws)
  {
    if |arr| == 0 {
      return arr;
    }
    var a := new T[|arr|](k requires 0 <= k < |arr| => arr[k]);
    assert a[..] == arr;
    var i: nat := |arr| - 1;
    while i > 0
      invariant i < a.Length == |arr|
      invariant ShuffledFrom(a[..], draws, i) == ShuffledFrom(arr, draws, |arr| - 1)
    {
      var j := DrawIndex(draws[i], i);
      ghost var before := a[..];
      a[i], a[j] := a[j], a[i];
      assert a[..] == Swap(before, i, j);
      i := i - 1;
    }
    r := a[..];
  }

  /** The questions a quiz asks: at most ten, all from the pool, none more often than there. */
  lemma {:induction false} SelectionFromPool(qs: seq<Question>, draws: seq<real>)
    requires Draws(draws, |qs|)
    ensures var s := FisherYates(qs, draws);
      var n := if |s| < QuizLength then |s| else QuizLength;
      |s[..n]| <= QuizLength && |s[..n]| <= |qs| && multiset(s[..n]) <= multiset(qs)
  {
    var s := FisherYates(qs, draws);
    FisherYatesPermutes(qs, draws);
    var n := if |s| < QuizLength then |s| else QuizLength;
    assert s == s[..n] + s[n..];
    assert multiset(s) == multiset(s[..n]) + multiset(s[n..]);
  }

  // ---------------------------------------------------------------------------------
  // Scores and the result

  /** `scores[k] || 0`. */
  function Score(scores: map<string, int>, k: string): int {
    if k in scores then scores[k] else 0
  }

  /** The `byKey` table of `computeResult`: for each key the last result card with it. */
  function ByKey(rs: seq<ResultCard>): (m: map<string, ResultCard>)
    ensures forall k :: k in m ==> m[k].key == k
  {
    if rs == [] then map[] else ByKey(rs[..|rs| - 1])[rs[|rs| - 1].key := rs[|rs| - 1]]
  }

  /** `byKey` has a key exactly when some card has it, and holds the last card with that key. */
  lemma {:induction false} ByKeyLatest(rs: seq<ResultCard>, k: string)
    ensures k in ByKey(rs) <==> exists i :: 0 <= i < |rs| && rs[i].key == k
    ensures k in ByKey(rs) ==>
              exists i :: 0 <= i < |rs| && ByKey(rs)[k] == rs[i]
                          && forall j :: i < j < |rs| ==> rs[j].key != k
  {
    if rs != [] {
      var init := rs[..|rs| - 1];
      ByKeyLatest(init, k);
      var last := rs[|rs| - 1];
      if last.key == k {
        assert ByKey(rs)[k] == rs[|rs| - 1];
      } else if k in ByKey(init) {
        var i :| 0 <= i < |init| && ByKey(init)[k] == init[i]
                                 && forall j :: i < j < |init| ==> init[j].key != k;
        assert rs[i] == init[i];
        assert forall j :: i < j < |rs| ==> rs[j].key != k by {
          forall j | i < j < |rs|
            ensures rs[j].key != k
          {
            if j < |init| {
              assert rs[j] == init[j];
            }
          }
        }
      } else {
        forall i | 0 <= i < |rs|
          ensures rs[i].key != k
        {
          if i < |init| {
            assert rs[i] == init[i];
          }
        }
      }
    }
  }

  /** `a` wins over `b`: a higher score, or the same score and an id no higher. */
  predicate Beats(a: ResultCard, b: ResultCard, scores: map<string, int>) {
    Score(scores, b.key) < Score(scores, a.key)
    || (Score(scores, b.key) == Score(scores, a.key) && a.id <= b.id)
  }

  /** The replacement test of `computeResult`'s loop: `cur` displaces the best so far. */
  predicate Displaces(cur: ResultCard, best: ResultCard, scores: map<string, int>) {
    Score(scores, cur.key) > Score(scores, best.key)
    || (Score(scores, cur.key) == Score(scores, best.key) && cur.id < best.id)
  }

  /** Two winners share their score and id: with distinct ids the result is unique. */
  lemma {:induction false} WinnerUnique(a: ResultCard, b: ResultCard, rs: seq<ResultCard>, scores: map<string, int>)
    requires a.key in ByKey(rs) && b.key in ByKey(rs)
    requires forall k :: k in ByKey(rs) ==> Beats(a, ByKey(rs)[k], scores)
    requires forall k :: k in ByKey(rs) ==> Beats(b, ByKey(rs)[k], scores)
    requires ByKey(rs)[a.key] == a && ByKey(rs)[b.key] == b
    ensures Score(scores, a.key) == Score(scores, b.key) && a.id == b.id
  {
    assert Beats(a, ByKey(rs)[b.key], scores);
    assert Beats(b, ByKey(rs)[a.key], scores);
  }

  /** Resetting every score to zero, keeping the keys: the loop over `Object.keys(state.scores)`. */
  method ZeroScores(scores: map<string, int>) returns (r: map<string, int>)
    ensures r.Keys == scores.Keys
    ensures forall k :: k in r ==> r[k] == 0
  {
    r := scores;
    var todo := scores.Keys;
    while todo != {}
      invariant todo <= r.Keys && r.Keys == scores.Keys
      invariant forall k :: k in r && k !in todo ==> r[k] == 0
      decreases todo
    {
      var k :| k in todo;
      r := r[k := 0];
      todo := todo - {k};
    }
  }

  /** The keys of the result cards. */
  function Keys(rs: seq<ResultCard>): set<string> {
    set i | 0 <= i < |rs| :: rs[i].key
  }

  /** The quiz's `state` object. */
  class QuizState {
    var role: Option<string>
    var questions: seq<Question>
    var results: seq<ResultCard>
    var scores: map<string, int>
    var selected: seq<Question>
    var index: nat
    var lastResult: Option<ResultCard>
    var saved: Option<SavedResult>

    /** The initial `state`: no role, nothing loaded. */
    constructor ()
      ensures role == None && questions == [] && results == [] && scores == map[]
      ensures selected == [] && index == 0 && lastResult == None && saved == None
    {
      role := None;
      questions, results := [], [];
      scores := map[];
      selected := [];
      index := 0;
      lastResult, saved := None, None;
    }

    /**
     * `loadDataForRole(role)` with the role's fetched question and result files: every result
     * key starts at score 0.
     */
    method LoadDataForRole(newRole: string, qs: seq<Question>, rs: seq<ResultCard>)
      modifies this
      ensures role == Some(newRole) && questions == qs && results == rs
      ensures scores.Keys == Keys(rs)
      ensures forall k :: k in scores ==> scores[k] == 0
      ensures selected == old(selected) && index == old(index)
      ensures lastResult == old(lastResult) && saved == old(saved)
    {
      role := Some(newRole);
      questions, results := qs, rs;
      var m: map<string, int> := map[];
      for i := 0 to |rs|
        invariant m.Keys == Keys(rs[..i])
        invariant forall k :: k in m ==> m[k] == 0
      {
        assert Keys(rs[..i + 1]) == Keys(rs[..i]) + {rs[i].key} by {
          assert forall j :: 0 <= j < i ==> rs[..i + 1][j] == rs[..i][j];
          assert rs[..i + 1][i] == rs[i];
        }
        m := m[rs[i].key := 0];
      }
      assert rs[..|rs|] == rs;
      scores := m;
    }

    /**
     * `startQuiz()`: the first ten questions of a shuffled pool, the first of them current, and
     * every score back to zero.
     */
    method StartQuiz(draws: seq<real>)
      requires Draws(draws, |questions|)
      modifies this
      ensures var s := FisherYates(old(questions), draws);
        selected == s[..if |s| < QuizLength then |s| else QuizLength]
      ensures index == 0
      ensures scores.Keys == old(scores).Keys && forall k :: k in scores ==> scores[k] == 0
      ensures role == old(role) && questions == old(questions) && results == old(results)
      ensures lastResult == old(lastResult) && saved == old(saved)
    {
      var shuffled := Shuffle(questions, draws);
      selected := shuffled[..if |shuffled| < QuizLength then |shuffled| else QuizLength];
      index := 0;
      scores := ZeroScores(scores);
    }

    /**
     * `answer(choiceIndex)`: one point to the chosen option's category, every other score as it
     * was, and on to the next question; `finished` says the last question was answered.
     */
    method Answer(choice: nat) returns (finished: bool)
      requires index < |selected| && choice < |selected[index].options|
      modifies this
      ensures var cat := old(selected[index].options[choice].cat);
        scores == old(scores)[cat := Score(old(scores), cat) + 1]
      ensures index == old(index) + 1
      ensures finished == (index >= |selected|)
      ensures role == old(role) && questions == old(questions) && results == old(results)
      ensures selected == old(selected) && lastResult == old(lastResult) && saved == old(saved)
    {
      var chosen := selected[index].options[choice];
      scores := scores[chosen.cat := Score(scores, chosen.cat) + 1];
      index := index + 1;
      finished := index >= |selected|;
    }

    /**
     * `computeResult()`: the card whose category scores highest, the lowest id winning a tie,
     * among the last card of each key. `None` stands for an empty results file, where the
     * source fails on `best.data`.
     */
    method ComputeResult() returns (best: Option<ResultCard>)
      ensures best.None? <==> results == []
      ensures best.Some? ==> best.value.key in ByKey(results) && ByKey(results)[best.value.key] == best.value
      ensures best.Some? ==> forall k :: k in ByKey(results) ==> Beats(best.value, ByKey(results)[k], scores)
    {
      var byKey: map<string, ResultCard> := map[];
      var keys: seq<string> := [];
      for i := 0 to |results|
        invariant byKey == ByKey(results[..i])
        invariant forall k :: k in byKey <==> k in keys
      {
        assert results[..i + 1][..i] == results[..i];
        if results[i].key !in byKey {
          keys := keys + [results[i].key];
        }
        byKey := byKey[results[i].key := results[i]];
      }
      assert results[..|results|] == results;
      best := None;
      for j := 0 to |keys|
        invariant best.None? <==> j == 0
        invariant best.Some? ==> best.value.key in byKey && byKey[best.value.key] == best.value
        invariant best.Some? ==> forall t :: 0 <= t < j ==> Beats(best.value, byKey[keys[t]], scores)
      {
        var cur := byKey[keys[j]];
        if best.None? || Displaces(cur, best.value, scores) {
          best := Some(cur);
        }
      }
      if results != [] {
        ByKeyLatest(results, results[0].key);
        assert keys != [];
      }
    }

    /**
     * The timer that ends the quiz: the result becomes `lastResult` and is saved. With no result
     * card nothing changes.
     */
    method Finish()
      modifies this
      ensures results == [] ==> lastResult == old(lastResult) && saved == old(saved)
      ensures results != [] ==> lastResult.Some? && saved == Some(SavedResult(role, lastResult.value.id))
      ensures results != [] ==> forall k :: k in ByKey(results) ==> Beats(lastResult.value, ByKey(results)[k], scores)
      ensures role == old(role) && questions == old(questions) && results == old(results)
      ensures scores == old(scores) && selected == old(selected) && index == old(index)
    {
      var res := ComputeResult();
      if res.Some? {
        lastResult := res;
        saved := Some(SavedResult(role, res.value.id));
      }
    }
  }
}
