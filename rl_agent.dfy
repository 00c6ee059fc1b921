/** The Q-learning ranking agent (app/core/rl_agent.py): a discretised state of a match and a
    table of three action values per state, updated by the Q-learning rule. */
module RLAgent {
  import opened Common

  /** Learning rate and discount factor. */
  const Alpha: real := 0.1
  const Gamma: real := 0.9

  /** The number of actions: decrease, keep, increase a ranking weight. */
  const Actions: int := 3

  /** `(category_match, score_range)`. */
  datatype State = State(categoryMatch: int, scoreRange: int)

  /** A value of the match dictionary, as far as `get_state` tells values apart: `None`, a
      boolean, a number (`int` or `float`), a string, or a container of some length. */
  datatype Value = NoneValue | Bool(b: bool) | Number(x: real) | Str(chars: string) | Container(size: nat)

  /** The match dictionary `get_state` reads. */
  type MatchInfo = map<string, Value>

  /** Python's truth value of `v`. */
  predicate Truthy(v: Value)
  {
    match v
    case NoneValue => false
    case Bool(b) => b
    case Number(x) => x != 0.0
    case Str(chars) => chars != []
    case Container(size) => size > 0
  }

  /** `dict.get(key, default)`. */
  function Get(info: MatchInfo, key: string, default: Value): (v: Value)
    ensures key in info ==> v == info[key]
    ensures key !in info ==> v == default
  {
    if key in info then info[key] else default
  }

  /** The number `v // 20` divides, or `None` when `//` raises `TypeError` (for `None`, a
      string or a container); a boolean counts as 0 or 1. */
  function Numeric(v: Value): (r: Option<real>)
    ensures r.Some? <==> v.Bool? || v.Number?
    ensures v.Number? ==> r == Some(v.x)
  {
    match v
    case Bool(b) => Some(if b then 1.0 else 0.0)
    case Number(x) => Some(x)
    case _ => None
  }

  /** The score `get_state` works with: `match_info.get('semantic_score', 0)`, or `None` when
      that value cannot be divided. */
  function ScoreOf(info: MatchInfo): Option<real>
  {
    Numeric(Get(info, "semantic_score", Number(0.0)))
  }

  /** `get_state`: 1 for a truthy category match, else 0, and the score's band of width 20
      (`int(score // 20)`); `None` where the division raises. */
  function GetState(info: MatchInfo): (r: Option<State>)
    ensures r.Some? <==> ScoreOf(info).Some?
    ensures r.Some? ==> (r.value.categoryMatch == 1 <==> Truthy(Get(info, "category_matched", NoneValue)))
    ensures r.Some? ==> r.value.categoryMatch == 0 || r.value.categoryMatch == 1
    ensures r.Some? ==>
      20.0 * (r.value.scoreRange as real) <= ScoreOf(info).value < 20.0 * (r.value.scoreRange as real) + 20.0
  {
    var score := ScoreOf(info);
    if score.None? then None
    else Some(State(if Truthy(Get(info, "category_matched", NoneValue)) then 1 else 0, (score.value / 20.0).Floor))
  }

  /** A missing score is band 0; a score that is present but `None`, or a string, raises. */
  lemma GetStateScoreCases(info: MatchInfo)
    ensures "semantic_score" !in info ==> GetState(info).Some? && GetState(info).value.scoreRange == 0
    ensures "semantic_score" in info && (info["semantic_score"].NoneValue? || info["semantic_score"].Str?) ==>
      GetState(info).None?
  {
    if "semantic_score" !in info {
      var r := GetState(info).value.scoreRange;
      assert 20.0 * (r as real) <= 0.0 < 20.0 * (r as real) + 20.0;
    }
  }

  /** Scores in [0, 100) fall in the bands 0 to 4, as the comment says; a score of exactly 100
      falls in a sixth band, 5. */
  lemma ScoreBands(info: MatchInfo)
    requires ScoreOf(info).Some?
    ensures 0.0 <= ScoreOf(info).value < 100.0 ==> 0 <= GetState(info).value.scoreRange <= 4
    ensures ScoreOf(info).value == 100.0 ==> GetState(info).value.scoreRange == 5
  {
    var r := GetState(info).value.scoreRange;
    if 0.0 <= ScoreOf(info).value < 100.0 {
      assert 20.0 * (r as real) < 100.0 && 0.0 < 20.0 * (r as real) + 20.0;
    }
  }

  /** `np.zeros(3)`. */
  function Zeros(): (row: seq<real>)
    ensures |row| == Actions && forall a :: 0 <= a < |row| ==> row[a] == 0.0
  {
    [0.0, 0.0, 0.0]
  }

  /** `np.max(row)`. */
  function MaxOf(row: seq<real>): (m: real)
    requires row != []
    ensures m in row
    ensures forall a :: 0 <= a < |row| ==> row[a] <= m
  {
    if |row| == 1 then row[0]
    else
      var rest := MaxOf(row[1..]);
      assert forall a :: 1 <= a < |row| ==> row[a] == row[1..][a - 1];
      if row[0] >= rest then row[0] else rest
  }

  /** Every row holds one value per action. */
  ghost predicate RowsOk(q: map<State, seq<real>>)
  {
    forall s :: s in q ==> |q[s]| == Actions
  }

  /** The row of `s` before the update: the stored one, or zeros. */
  function RowBefore(q: map<State, seq<real>>, s: State): seq<real>
  {
    if s in q then q[s] else Zeros()
  }

  /** The table with a zero row for `s` when it has none: `s` gains a row, and no row that was
      there changes. */
  function WithRow(q: map<State, seq<real>>, s: State): (r: map<State, seq<real>>)
    ensures r.Keys == q.Keys + {s}
    ensures forall t :: t in r ==> r[t] == RowBefore(q, t)
    ensures RowsOk(q) ==> RowsOk(r)
  {
    if s in q then q else q[s := Zeros()]
  }

  /** Adding the rows of two states keeps every row as it was and gives zeros to new ones. */
  lemma WithRows(q: map<State, seq<real>>, s1: State, s2: State)
    requires RowsOk(q)
    ensures var q2 := WithRow(WithRow(q, s1), s2);
      && q2.Keys == q.Keys + {s1, s2}
      && (forall t :: t in q2 ==> q2[t] == RowBefore(q, t))
      && RowsOk(q2)
  {
    var q1 := WithRow(q, s1);
    assert forall t :: t in q1.Keys + {s2} ==> RowBefore(q1, t) == RowBefore(q, t);
  }

  /** The target of the Q-learning rule. */
  function Target(reward: real, maxNext: real): real
  {
    reward + Gamma * maxNext
  }

  /** The Q-learning rule: the current value moved `Alpha` of the way to the target. */
  function Learned(current: real, reward: real, maxNext: real): real
  {
    current + Alpha * (Target(reward, maxNext) - current)
  }

  /** `update(state, action, reward, next_state)` as a function of the table. */
  function QUpdate(q: map<State, seq<real>>, state: State, action: int, reward: real, next: State)
    : (r: map<State, seq<real>>)
    requires RowsOk(q) && 0 <= action < Actions
    ensures RowsOk(r)
    ensures r.Keys == q.Keys + {state, next}
  {
    var q2 := WithRow(WithRow(q, state), next);
    WithRows(q, state, next);
    var current := q2[state][action];
    var newQ := Learned(current, reward, MaxOf(q2[next]));
    q2[state := q2[state][action := newQ]]
  }

  /** Only one entry changes: every other row is the one before the update (zeros for a new
      state), and so is every other entry of the updated row. */
  lemma QUpdateFrame(q: map<State, seq<real>>, state: State, action: int, reward: real, next: State)
    requires RowsOk(q) && 0 <= action < Actions
    ensures var r := QUpdate(q, state, action, reward, next);
      && (forall s :: s in r && s != state ==> r[s] == RowBefore(q, s))
      && (forall a :: 0 <= a < Actions && a != action ==> r[state][a] == RowBefore(q, state)[a])
  {
    WithRows(q, state, next);
  }

  /** The new value moves a tenth of the way from the current value to the target, whose
      maximum is read from the next state's row before the write: for `state == next` that is
      the row as it was, the entry being overwritten included. */
  lemma QUpdateValue(q: map<State, seq<real>>, state: State, action: int, reward: real, next: State)
    requires RowsOk(q) && 0 <= action < Actions
    ensures var current := RowBefore(q, state)[action];
      var target := Target(reward, MaxOf(RowBefore(q, next)));
      QUpdate(q, state, action, reward, next)[state][action] == current + 0.1 * (target - current)
  {
    var q1 := WithRow(q, state);
    assert RowBefore(q1, next) == RowBefore(q, next);
  }

  /** The new value lies between the current value and the target, and it equals the current
      value exactly when the current value already is the target. */
  lemma QUpdateBetween(q: map<State, seq<real>>, state: State, action: int, reward: real, next: State)
    requires RowsOk(q) && 0 <= action < Actions
    ensures var current := RowBefore(q, state)[action];
      var target := Target(reward, MaxOf(RowBefore(q, next)));
      var newQ := QUpdate(q, state, action, reward, next)[state][action];
      && (current <= target ==> current <= newQ <= target)
      && (target <= current ==> target <= newQ <= current)
      && (newQ == current <==> current == target)
  {
    QUpdateValue(q, state, action, reward, next);
  }

  /** Updating a state that is its own successor uses the maximum of the row as it was. */
  lemma QUpdateSelfLoop(q: map<State, seq<real>>, s: State, action: int, reward: real)
    requires RowsOk(q) && 0 <= action < Actions && s in q
    ensures var row := q[s];
      QUpdate(q, s, action, reward, s)[s][action] == row[action] + 0.1 * (reward + 0.9 * MaxOf(row) - row[action])
  {
    QUpdateValue(q, s, action, reward, s);
  }

  /** The Q-table file: absent, present but not a pickled table, or holding a table. */
  datatype TableFile = NoFile | Unreadable | Stored(table: map<State, seq<real>>)

  class RLRankingAgent {
    var qTable: map<State, seq<real>>

    /** The agent over a given table. */
    constructor (table: map<State, seq<real>>)
      requires RowsOk(table)
      ensures qTable == table
      ensures RowsOk(qTable)
    {
      qTable := table;
    }

    /** `_initialize`: the table loaded from the table file when there is one, else an empty
        table; `null` when `pickle.load` raises on an unreadable file, for there is no `try`. */
    static method Initialize(file: TableFile) returns (agent: RLRankingAgent?)
      requires file.Stored? ==> RowsOk(file.table)
      ensures agent == null <==> file.Unreadable?
      ensures agent != null ==> fresh(agent) && agent.qTable == (if file.Stored? then file.table else map[])
    {
      match file
      case NoFile =>
        agent := new RLRankingAgent(map[]);
      case Unreadable =>
        agent := null;
      case Stored(table) =>
        agent := new RLRankingAgent(table);
    }

    /** `update`: zero rows for unseen states, then one entry rewritten by the Q-learning
        rule. */
    method Update(state: State, action: int, reward: real, next: State)
      modifies this
      requires RowsOk(qTable) && 0 <= action < Actions
      ensures qTable == QUpdate(old(qTable), state, action, reward, next)
      ensures RowsOk(qTable)
    {
      ghost var q0 := qTable;
      if state !in qTable {
        qTable := qTable[state := Zeros()];
      }
      assert qTable == WithRow(q0, state);
      if next !in qTable {
        qTable := qTable[next := Zeros()];
      }
      ghost var q2 := WithRow(WithRow(q0, state), next);
      assert qTable == q2;
      assert qTable[state] == RowBefore(q0, state) && qTable[next] == RowBefore(WithRow(q0, state), next);
      var current := qTable[state][action];
      var maxNext := MaxOf(qTable[next]);
      var newQ := Learned(current, reward, maxNext);
      assert QUpdate(q0, state, action, reward, next) == q2[state := q2[state][action := newQ]];
      qTable := qTable[state := qTable[state][action := newQ]];
    }
  }
}
