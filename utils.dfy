/** The month-to-date filter, the greeting, the per-card summary and the top-five ranking. */
module Utils {

  import opened Wrappers
  import opened Seqs
  import opened Calendar
  import opened Text
  import DateText
  import opened Ledger

  // ---------------------------------------------------------------- month-to-date filter

  /** The mask of `filter_data_by_date`: a date, between the first of the target's month at the
      target's own time of day and the target, both ends included. NaT compares false. */
  predicate InMonthToDate(t: Txn, target: DateTime)
  {
    t.opDate.Some? && LessEq(FirstOfMonth(target), t.opDate.value) && LessEq(t.opDate.value, target)
  }

  /** `filter_data_by_date`: exactly the rows inside the window, each as often as in the input,
      in input order. */
  function FilterByDate(rows: seq<Txn>, target: DateTime): (r: seq<Txn>)
    ensures IsSubsequence(r, rows)
    ensures forall t :: multiset(r)[t] == if InMonthToDate(t, target) then multiset(rows)[t] else 0
  {
    var inWindow := t => InMonthToDate(t, target);
    FilterIsSubsequence(rows, inWindow);
    FilterCounts(rows, inWindow);
    Filter(rows, inWindow)
  }

  /** Every row of the month-to-date slice has a date, inside the window. */
  lemma FilteredRowsDated(rows: seq<Txn>, target: DateTime)
    ensures forall t :: t in FilterByDate(rows, target) ==> t.opDate.Some? && InMonthToDate(t, target)
  {
    forall t | t in FilterByDate(rows, target) ensures InMonthToDate(t, target) {
      assert multiset(FilterByDate(rows, target))[t] > 0;
    }
  }

  /** The window starts on day 1 at the target's time of day, not at midnight: a row of the first
      of the month earlier in the day than the target is left out, one at or after it is kept. */
  lemma WindowStartKeepsTimeOfDay(t: Txn, target: DateTime)
    requires t.opDate.Some? && t.opDate.value.year == target.year && t.opDate.value.month == target.month
    requires t.opDate.value.day == 1 && LessEq(t.opDate.value, target)
    ensures InMonthToDate(t, target) <==> t.opDate.value.sec >= target.sec
  {
  }

  /** The window in seconds: from the first of the month at the target's time of day to the
      target, as `datetime` comparison measures it. */
  lemma MonthToDateSpan(t: Txn, target: DateTime)
    requires t.opDate.Some?
    ensures InMonthToDate(t, target) <==>
      Ordinal(target) - (target.day - 1) * SecondsPerDay <= Ordinal(t.opDate.value) <= Ordinal(target)
  {
    OrderMatchesOrdinal(FirstOfMonth(target), t.opDate.value);
    OrderMatchesOrdinal(t.opDate.value, target);
  }

  /** Rows on 2024-01-05, 2024-01-15 and 2024-01-20, filtered at 2024-01-15 midnight: the first
      two are kept. */
  lemma FilterByDateExample()
    ensures var rows := [
        Txn(Some(Timestamp(2024, 1, 5, 0)), -10000, "", "", None, "OK"),
        Txn(Some(Timestamp(2024, 1, 15, 0)), -20000, "", "", None, "OK"),
        Txn(Some(Timestamp(2024, 1, 20, 0)), -30000, "", "", None, "OK")];
      FilterByDate(rows, Timestamp(2024, 1, 15, 0)) == rows[..2]
  {
    var rows := [
        Txn(Some(Timestamp(2024, 1, 5, 0)), -10000, "", "", None, "OK"),
        Txn(Some(Timestamp(2024, 1, 15, 0)), -20000, "", "", None, "OK"),
        Txn(Some(Timestamp(2024, 1, 20, 0)), -30000, "", "", None, "OK")];
    var target: DateTime := Timestamp(2024, 1, 15, 0);
    var inWindow := t => InMonthToDate(t, target);
    assert rows == rows[..2] + [rows[2]];
    FilterAll(rows[..2], inWindow);
    FilterNone([rows[2]], inWindow);
    FilterAppend(rows[..2], [rows[2]], inWindow);
  }

  // ---------------------------------------------------------------- greeting

  datatype DayPart = Morning | Afternoon | Evening | Night

  /** The bucket `get_greeting` puts an hour in. */
  function PartOfDay(hour: int): DayPart
  {
    if hour < 12 then Morning
    else if hour < 18 then Afternoon
    else if hour < 22 then Evening
    else Night
  }

  function GreetingText(p: DayPart): string
  {
    match p
    case Morning => "Доброе утро"
    case Afternoon => "Добрый день"
    case Evening => "Добрый вечер"
    case Night => "Доброй ночи"
  }

  /** `get_greeting`, with the current hour as a parameter. */
  function Greeting(hour: int): string
  {
    GreetingText(PartOfDay(hour))
  }

  /** The hours of each bucket, [From(p), Until(p)). */
  function From(p: DayPart): int
  {
    match p
    case Morning => 0
    case Afternoon => 12
    case Evening => 18
    case Night => 22
  }

  function Until(p: DayPart): int
  {
    match p
    case Morning => 12
    case Afternoon => 18
    case Evening => 22
    case Night => 24
  }

  /** The four buckets partition the hours 0..23, and each gets its own greeting. */
  lemma GreetingBuckets(hour: int, p: DayPart)
    requires 0 <= hour < 24
    ensures PartOfDay(hour) == p <==> From(p) <= hour < Until(p)
    ensures Greeting(hour) == GreetingText(p) <==> PartOfDay(hour) == p
  {
  }

  // ---------------------------------------------------------------- per-card summary

  datatype CardSummary = CardSummary(lastDigits: string, totalSpent: int, cashback: real)

  /** The mask of `calculate_card_data`: a card number is present and the status is "OK". */
  predicate OnCard(t: Txn)
  {
    t.card.Some? && t.status == "OK"
  }

  /** `card[-4:]`: the last four characters, or the whole string when it is shorter. */
  function LastFour(card: string): string
  {
    if |card| >= 4 then card[|card| - 4..] else card
  }

  function Abs(x: int): nat
  {
    if x < 0 then -x else x
  }

  predicate StrictlySorted(keys: seq<string>)
  {
    forall i, j :: 0 <= i < j < |keys| ==> StrLess(keys[i], keys[j])
  }

  /** Adds a key to an ordered list of distinct keys. */
  function InsertKey(keys: seq<string>, c: string): seq<string>
  {
    if keys == [] then [c]
    else if c == keys[0] then keys
    else if StrLess(c, keys[0]) then [c] + keys
    else [keys[0]] + InsertKey(keys[1..], c)
  }

  /** The group keys of `groupby('Номер карты')`: the distinct card numbers present, in the
      sorted order pandas visits the groups in. */
  function GroupKeys(rows: seq<Txn>): seq<string>
  {
    if rows == [] then []
    else
      var keys := GroupKeys(rows[..|rows| - 1]);
      var t := rows[|rows| - 1];
      if t.card.Some? then InsertKey(keys, t.card.value) else keys
  }

  /** The rows of one card's group. */
  function Group(rows: seq<Txn>, card: string): seq<Txn>
  {
    Filter(rows, t => OnCard(t) && t.card == Some(card))
  }

  /** `group[group['Сумма операции'] < 0]['Сумма операции'].sum()`. */
  function NegativeSum(rows: seq<Txn>): int
  {
    if rows == [] then 0
    else (if rows[0].amount < 0 then rows[0].amount else 0) + NegativeSum(rows[1..])
  }

  /** The summary of one card: total spent is the absolute value of the negative sum, cashback is
      a hundredth of it, raised to zero if negative. */
  function Summarize(rows: seq<Txn>, card: string): CardSummary
  {
    var spent := Abs(NegativeSum(Group(rows, card)));
    var cashback := spent as real / 100.0;
    CardSummary(LastFour(card), spent, if cashback < 0.0 then 0.0 else cashback)
  }

  /** What `calculate_card_data` returns: one summary per group, in group order. */
  function CardReport(rows: seq<Txn>): seq<CardSummary>
  {
    var keys := GroupKeys(Filter(rows, OnCard));
    seq(|keys|, i requires 0 <= i < |keys| => Summarize(rows, keys[i]))
  }

  /** `calculate_card_data`: filter, group by card number, and append one summary per group. */
  method CalculateCardData(rows: seq<Txn>) returns (cards: seq<CardSummary>)
    ensures cards == CardReport(rows)
  {
    var eligible := Filter(rows, OnCard);
    var keys: seq<string> := [];
    for i := 0 to |eligible|
      invariant keys == GroupKeys(eligible[..i])
    {
      assert eligible[..i + 1][..i] == eligible[..i];
      if eligible[i].card.Some? {
        keys := InsertKey(keys, eligible[i].card.value);
      }
    }
    assert eligible[..|eligible|] == eligible;
    cards := [];
    for k := 0 to |keys|
      invariant |cards| == k
      invariant forall j :: 0 <= j < k ==> cards[j] == Summarize(rows, keys[j])
    {
      var card := keys[k];
      var spent := NegativeSum(Group(rows, card));
      spent := Abs(spent);
      var cashback := spent as real / 100.0;
      if cashback < 0.0 {
        cashback := 0.0;
      }
      cards := cards + [CardSummary(LastFour(card), spent, cashback)];
    }
  }

  /** The card numbers of the rows that count toward card summaries. */
  function CardNumbers(rows: seq<Txn>): set<string>
  {
    set t | t in rows && OnCard(t) :: t.card.value
  }

  lemma {:induction false} InsertKeyKeepsOrder(keys: seq<string>, c: string)
    requires StrictlySorted(keys)
    ensures StrictlySorted(InsertKey(keys, c))
    ensures forall x :: x in InsertKey(keys, c) <==> x in keys || x == c
  {
    if keys != [] && c != keys[0] {
      if StrLess(c, keys[0]) {
        forall j | 0 < j < |keys| ensures StrLess(c, keys[j]) {
          StrLessTransitive(c, keys[0], keys[j]);
        }
      } else {
        StrLessTotal(c, keys[0]);
        InsertKeyKeepsOrder(keys[1..], c);
        var r := InsertKey(keys[1..], c);
        forall j | 0 <= j < |r| ensures StrLess(keys[0], r[j]) {
          assert r[j] in keys[1..] || r[j] == c;
        }
        assert keys == [keys[0]] + keys[1..];
      }
    }
  }

  /** The group keys are each card number present, once, in increasing order. */
  lemma {:induction false} GroupKeysSpec(rows: seq<Txn>)
    ensures StrictlySorted(GroupKeys(rows))
    ensures forall c :: c in GroupKeys(rows) <==> exists t :: t in rows && t.card == Some(c)
  {
    if rows != [] {
      var init := rows[..|rows| - 1];
      var t := rows[|rows| - 1];
      GroupKeysSpec(init);
      assert rows == init + [t];
      if t.card.Some? {
        InsertKeyKeepsOrder(GroupKeys(init), t.card.value);
      }
      forall c ensures c in GroupKeys(rows) <==> exists u :: u in rows && u.card == Some(c) {
        if c in GroupKeys(rows) {
          if c in GroupKeys(init) {
            var u :| u in init && u.card == Some(c);
            assert u in rows;
          } else {
            assert t in rows;
          }
        }
      }
    }
  }

  /** A strictly ordered list has no repeated element, so it is as long as its set of elements. */
  lemma {:induction false} SortedKeysCount(keys: seq<string>)
    requires StrictlySorted(keys)
    ensures |set c | c in keys| == |keys|
  {
    if keys != [] {
      SortedKeysCount(keys[1..]);
      StrLessIrreflexive(keys[0]);
      assert keys[0] !in keys[1..];
      assert (set c | c in keys) == {keys[0]} + set c | c in keys[1..];
    }
  }

  lemma {:induction false} NegativeSumAppend(a: seq<Txn>, b: seq<Txn>)
    ensures NegativeSum(a + b) == NegativeSum(a) + NegativeSum(b)
  {
    if a == [] {
      assert a + b == b;
    } else {
      assert (a + b)[1..] == a[1..] + b;
      NegativeSumAppend(a[1..], b);
    }
  }

  lemma {:induction false} NegativeSumNonPositive(rows: seq<Txn>)
    ensures NegativeSum(rows) <= 0
  {
    if rows != [] {
      NegativeSumNonPositive(rows[1..]);
    }
  }

  /** A card's total is what its negative amounts add up to, never below zero, and its cashback
      is exactly one hundredth of it. */
  lemma SummaryFacts(rows: seq<Txn>, card: string)
    ensures Summarize(rows, card).lastDigits == LastFour(card)
    ensures Summarize(rows, card).totalSpent == -NegativeSum(Group(rows, card)) >= 0
    ensures Summarize(rows, card).cashback >= 0.0
    ensures Summarize(rows, card).cashback * 100.0 == Summarize(rows, card).totalSpent as real
  {
    NegativeSumNonPositive(Group(rows, card));
  }

  /** Appending a row changes a card's total only if it is an OK expense on that card, and then
      by the size of its amount: income never counts. */
  lemma SummaryAppend(rows: seq<Txn>, t: Txn, card: string)
    ensures Summarize(rows + [t], card).totalSpent ==
      Summarize(rows, card).totalSpent + (if OnCard(t) && t.card == Some(card) && t.amount < 0 then -t.amount else 0)
  {
    var p := u => OnCard(u) && u.card == Some(card);
    FilterAppend(rows, [t], p);
    assert Filter([t], p) == if p(t) then [t] else [] by {
      assert [t][1..] == [];
    }
    NegativeSumAppend(Filter(rows, p), Filter([t], p));
    NegativeSumNonPositive(Filter(rows, p));
    NegativeSumNonPositive(Filter(rows + [t], p));
  }

  /** `calculate_card_data` yields one entry per distinct card number among the OK rows, in the
      increasing order of the card numbers, each entry summarising that card's group. */
  lemma CardReportSpec(rows: seq<Txn>)
    ensures var keys := GroupKeys(Filter(rows, OnCard));
      && StrictlySorted(keys)
      && (forall c :: c in keys <==> c in CardNumbers(rows))
      && |CardReport(rows)| == |keys| == |CardNumbers(rows)|
      && forall i :: 0 <= i < |keys| ==> CardReport(rows)[i] == Summarize(rows, keys[i])
  {
    var eligible := Filter(rows, OnCard);
    var keys := GroupKeys(eligible);
    GroupKeysSpec(eligible);
    FilterMembers(rows, OnCard);
    forall c ensures c in keys <==> c in CardNumbers(rows) {
      if c in keys {
        var t :| t in eligible && t.card == Some(c);
        assert t in rows && OnCard(t);
      }
      if c in CardNumbers(rows) {
        var t :| t in rows && OnCard(t) && t.card.value == c;
        assert t in eligible;
      }
    }
    SortedKeysCount(keys);
    assert (set c | c in keys) == CardNumbers(rows);
  }

  /** The example of two OK expenses of 100 and 200 roubles on one card. */
  lemma CardReportExample()
    ensures CardReport([
      Txn(None, -10000, "", "", Some("1234567890123456"), "OK"),
      Txn(None, -20000, "", "", Some("1234567890123456"), "OK")])
      == [CardSummary("3456", 30000, 300.0)]
  {
    var rows := [
      Txn(None, -10000, "", "", Some("1234567890123456"), "OK"),
      Txn(None, -20000, "", "", Some("1234567890123456"), "OK")];
    assert Filter(rows, OnCard) == rows;
    assert GroupKeys(rows) == ["1234567890123456"] by {
      assert rows[..1][..0] == [];
      assert GroupKeys(rows[..1]) == ["1234567890123456"];
    }
    assert Group(rows, "1234567890123456") == rows;
  }

  // ---------------------------------------------------------------- top five

  /** One entry of `top_five_transact`: the day as "%d.%m.%Y", and the row's own signed amount,
      category and description. */
  datatype TopTxn = TopTxn(date: string, amount: int, category: string, description: string)

  /** The sort key of `sort_values(key=abs)`. */
  function Magnitude(t: Txn): nat
  {
    Abs(t.amount)
  }

  /** `picked` lists the row indices `sort_values(key=abs, ascending=False).head(5)` may select:
      min(5, |rows|) distinct rows by non-increasing magnitude, none left out larger than one
      kept. Ties may fall either way, as the sort is not stable. */
  ghost predicate IsRanking(rows: seq<Txn>, picked: seq<nat>)
  {
    && |picked| == Min(5, |rows|)
    && (forall k :: 0 <= k < |picked| ==> picked[k] < |rows|)
    && (forall k, l :: 0 <= k < l < |picked| ==> picked[k] != picked[l])
    && (forall k, l :: 0 <= k < l < |picked| ==> Magnitude(rows[picked[k]]) >= Magnitude(rows[picked[l]]))
    && (forall j, k :: 0 <= j < |rows| && j !in picked && 0 <= k < |picked| ==>
          Magnitude(rows[j]) <= Magnitude(rows[picked[k]]))
  }

  /** `picked` ranks the first `i` rows as IsRanking does all of them; while fewer than five
      have been seen, all of them are kept. */
  ghost predicate RanksPrefix(rows: seq<Txn>, picked: seq<nat>, i: nat)
    requires i <= |rows|
  {
    && |picked| == Min(5, i)
    && (forall k :: 0 <= k < |picked| ==> picked[k] < i)
    && (forall k, l :: 0 <= k < l < |picked| ==> picked[k] != picked[l])
    && (forall k, l :: 0 <= k < l < |picked| ==> Magnitude(rows[picked[k]]) >= Magnitude(rows[picked[l]]))
    && (forall j, k :: 0 <= j < i && j !in picked && 0 <= k < |picked| ==>
          Magnitude(rows[j]) <= Magnitude(rows[picked[k]]))
    && (i < 5 ==> forall j :: 0 <= j < i ==> j in picked)
  }

  /** Row `i` placed at position `p` of the ranking. */
  function InsertAt(picked: seq<nat>, p: nat, i: nat): (grown: seq<nat>)
    requires p <= |picked|
    ensures |grown| == |picked| + 1
    ensures forall k :: 0 <= k < |grown| ==>
      grown[k] == if k < p then picked[k] else if k == p then i else picked[k - 1]
  {
    picked[..p] + [i] + picked[p..]
  }

  lemma InsertAtMembers(picked: seq<nat>, p: nat, i: nat)
    requires p <= |picked|
    ensures forall j :: j in InsertAt(picked, p, i) <==> j in picked || j == i
  {
    var grown := InsertAt(picked, p, i);
    forall j ensures j in grown <==> j in picked || j == i {
      if j in picked {
        var k :| 0 <= k < |picked| && picked[k] == j;
        if k < p { assert grown[k] == j; } else { assert grown[k + 1] == j; }
      }
      if j == i {
        assert grown[p] == i;
      }
    }
  }

  /** Placing row `i` after every kept row of at least its magnitude keeps the ranking ordered
      and free of repetitions. */
  lemma InsertAtOrdered(rows: seq<Txn>, picked: seq<nat>, i: nat, p: nat)
    requires i < |rows| && RanksPrefix(rows, picked, i)
    requires p <= |picked|
    requires forall k :: 0 <= k < p ==> Magnitude(rows[picked[k]]) >= Magnitude(rows[i])
    requires p < |picked| ==> Magnitude(rows[picked[p]]) < Magnitude(rows[i])
    ensures var grown := InsertAt(picked, p, i);
      forall k, l :: 0 <= k < l < |grown| ==> Magnitude(rows[grown[k]]) >= Magnitude(rows[grown[l]])
  {
    var m := Magnitude(rows[i]);
    var grown := InsertAt(picked, p, i);
    forall k, l | 0 <= k < l < |grown| ensures Magnitude(rows[grown[k]]) >= Magnitude(rows[grown[l]]) {
      if l < p {
      } else if l == p {
      } else if k < p {
      } else if k == p {
        assert Magnitude(rows[picked[p]]) >= Magnitude(rows[picked[l - 1]]) || p == l - 1;
      } else {
        assert grown[k] == picked[k - 1] && grown[l] == picked[l - 1];
      }
    }
  }

  lemma InsertAtDistinct(rows: seq<Txn>, picked: seq<nat>, i: nat, p: nat)
    requires i < |rows| && RanksPrefix(rows, picked, i)
    requires p <= |picked|
    ensures var grown := InsertAt(picked, p, i);
      && (forall k :: 0 <= k < |grown| ==> grown[k] < i + 1)
      && (forall k, l :: 0 <= k < l < |grown| ==> grown[k] != grown[l])
  {
    var grown := InsertAt(picked, p, i);
    forall k, l | 0 <= k < l < |grown| ensures grown[k] != grown[l] {
      if k == p || l == p {
      } else {
        assert grown[k] == picked[if k < p then k else k - 1];
        assert grown[l] == picked[if l < p then l else l - 1];
      }
    }
  }

  /** A sixth entry dropped from a ranking is the only member lost. */
  lemma TruncateMembers(grown: seq<nat>)
    requires |grown| == 6
    ensures forall x :: x in grown ==> x in grown[..5] || x == grown[5]
  {
    forall x | x in grown ensures x in grown[..5] || x == grown[5] {
      var g :| 0 <= g < 6 && grown[g] == x;
      if g < 5 {
        assert grown[..5][g] == x;
      }
    }
  }

  /** ... and a sixth row, if any, can be dropped: it is no larger than those kept. */
  lemma RankStep(rows: seq<Txn>, picked: seq<nat>, i: nat, p: nat)
    requires i < |rows| && RanksPrefix(rows, picked, i)
    requires p <= |picked|
    requires forall k :: 0 <= k < p ==> Magnitude(rows[picked[k]]) >= Magnitude(rows[i])
    requires p < |picked| ==> Magnitude(rows[picked[p]]) < Magnitude(rows[i])
    ensures var grown := InsertAt(picked, p, i);
      RanksPrefix(rows, if |grown| > 5 then grown[..5] else grown, i + 1)
  {
    var m := Magnitude(rows[i]);
    var grown := InsertAt(picked, p, i);
    InsertAtMembers(picked, p, i);
    InsertAtOrdered(rows, picked, i, p);
    InsertAtDistinct(rows, picked, i, p);
    var next := if |grown| > 5 then grown[..5] else grown;
    if |grown| > 5 {
      TruncateMembers(grown);
    }
    forall j, k | 0 <= j < i + 1 && j !in next && 0 <= k < |next|
      ensures Magnitude(rows[j]) <= Magnitude(rows[next[k]])
    {
      assert next[k] == grown[k];
      if |grown| > 5 && j == grown[5] {
      } else {
        assert j != i && j !in picked;
        if k == p {
          assert |picked| == 5 && p < 5;
          assert Magnitude(rows[picked[4]]) < m;
        } else {
          assert next[k] == picked[if k < p then k else k - 1];
        }
      }
    }
    assert i + 1 < 5 ==> next == grown;
  }

  /** The ranking step of `top_five_transact`: one pass that keeps the five largest rows seen so
      far, in order, a new row going after those of equal magnitude. */
  method RankByMagnitude(rows: seq<Txn>) returns (picked: seq<nat>)
    ensures IsRanking(rows, picked)
  {
    picked := [];
    for i := 0 to |rows|
      invariant RanksPrefix(rows, picked, i)
    {
      var m := Magnitude(rows[i]);
      var p := 0;
      while p < |picked| && Magnitude(rows[picked[p]]) >= m
        invariant 0 <= p <= |picked|
        invariant forall k :: 0 <= k < p ==> Magnitude(rows[picked[k]]) >= m
      {
        p := p + 1;
      }
      RankStep(rows, picked, i, p);
      var grown := InsertAt(picked, p, i);
      picked := if |grown| > 5 then grown[..5] else grown;
    }
  }

  /** The rendering of a ranked row; NaT has no `strftime`. */
  function Entry(t: Txn): TopTxn
    requires t.opDate.Some?
  {
    TopTxn(DateText.RenderDayMonthYear(t.opDate.value), t.amount, t.category, t.description)
  }

  /** The entries of the ranked rows, in ranking order. */
  function Entries(rows: seq<Txn>, picked: seq<nat>): seq<TopTxn>
    requires forall k :: 0 <= k < |picked| ==> picked[k] < |rows| && rows[picked[k]].opDate.Some?
  {
    seq(|picked|, k requires 0 <= k < |picked| => Entry(rows[picked[k]]))
  }

  /** What `top_five_transact` returns for a given ranking: the entries, or the error strftime
      raises on a ranked row whose date is NaT. */
  ghost predicate RendersRanking(rows: seq<Txn>, picked: seq<nat>, r: Result<seq<TopTxn>, string>)
    requires IsRanking(rows, picked)
  {
    if forall k :: 0 <= k < |picked| ==> rows[picked[k]].opDate.Some?
    then r == Success(Entries(rows, picked))
    else r.Failure?
  }

  /** `top_five_transact`: rank, then append one entry per ranked row. */
  method TopFiveTransact(rows: seq<Txn>) returns (r: Result<seq<TopTxn>, string>)
    ensures exists picked :: IsRanking(rows, picked) && RendersRanking(rows, picked, r)
    ensures (forall t :: t in rows ==> t.opDate.Some?) ==> r.Success? && |r.value| == Min(5, |rows|)
  {
    var picked := RankByMagnitude(rows);
    var top: seq<TopTxn> := [];
    for k := 0 to |picked|
      invariant |top| == k
      invariant forall l :: 0 <= l < k ==> rows[picked[l]].opDate.Some? && top[l] == Entry(rows[picked[l]])
    {
      var t := rows[picked[k]];
      if t.opDate.None? {
        r := Failure("NaTType does not support strftime");
        assert !(forall l :: 0 <= l < |picked| ==> rows[picked[l]].opDate.Some?) by {
          assert t in rows;
        }
        assert RendersRanking(rows, picked, r);
        return;
      }
      top := top + [Entry(t)];
    }
    r := Success(top);
    assert top == Entries(rows, picked);
    assert RendersRanking(rows, picked, r);
  }
}
