/** Feature encodings and classifier evaluation of the shopping program:
    the month table, the 0/1 flags read from a data row, and the
    sensitivity/specificity counts over actual and predicted labels. */
module Shopping {
  import opened Outcomes

  // ---------------------------------------------------------------------
  // Month table
  // ---------------------------------------------------------------------

  /** The month table as the program writes it; the sixth month is keyed
      `"June"`, not `"Jun"`. */
  const Months: map<string, nat> := map[
    "Jan" := 0, "Feb" := 1, "Mar" := 2, "Apr" := 3, "May" := 4, "June" := 5,
    "Jul" := 6, "Aug" := 7, "Sep" := 8, "Oct" := 9, "Nov" := 10, "Dec" := 11]

  /** The twelve keys in table order. */
  const MonthNames: seq<string> :=
    ["Jan", "Feb", "Mar", "Apr", "May", "June", "Jul", "Aug", "Sep", "Oct", "Nov", "Dec"]

  /** Month index of a month name; any name outside the table is a lookup
      failure. */
  function MonthToNum(name: string): (r: Option<nat>)
    ensures r.Some? <==> name in MonthNames
    ensures r.Some? ==> r.value < 12 && MonthNames[r.value] == name
  {
    if name in Months then Some(Months[name]) else None
  }

  /** Every table key maps back to its position, so the table is a
      bijection between its twelve keys and `0..11`. */
  lemma MonthRoundTrip()
    ensures forall k | 0 <= k < 12 :: MonthToNum(MonthNames[k]) == Some(k)
    ensures forall a, b | MonthToNum(a).Some? && MonthToNum(a) == MonthToNum(b) :: a == b
  {
  }

  /** The sixth month is found only under the key `"June"`. */
  lemma JuneKey()
    ensures MonthToNum("June") == Some(5)
    ensures MonthToNum("Jun") == None
  {
  }

  // ---------------------------------------------------------------------
  // Flags
  // ---------------------------------------------------------------------

  /** 1 when the field is exactly `truth`, 0 for every other string. */
  function Flag(field: string, truth: string): int {
    if field == truth then 1 else 0
  }

  /** The categorical columns of a row after encoding. */
  datatype Encoded = Encoded(visitorType: int, weekend: int, revenue: int)

  /** Encodes the visitor-type and weekend fields of a row and its revenue
      label: a returning visitor, and the exact field `"TRUE"`, are 1; every
      other string is 0. */
  function EncodeRow(visitor: string, weekend: string, revenue: string): (r: Encoded)
    ensures r.visitorType == 1 <==> visitor == "Returning_Visitor"
    ensures r.visitorType == 0 <==> visitor != "Returning_Visitor"
    ensures r.weekend == 1 <==> weekend == "TRUE"
    ensures r.weekend == 0 <==> weekend != "TRUE"
    ensures r.revenue == 1 <==> revenue == "TRUE"
    ensures r.revenue == 0 <==> revenue != "TRUE"
  {
    Encoded(Flag(visitor, "Returning_Visitor"), Flag(weekend, "TRUE"), Flag(revenue, "TRUE"))
  }

  /** Other spellings of true, and the other visitor types, encode as 0. */
  lemma EncodingIsExact()
    ensures EncodeRow("New_Visitor", "True", "true") == Encoded(0, 0, 0)
    ensures EncodeRow("Other", "FALSE", "FALSE") == Encoded(0, 0, 0)
  {
  }

  // ---------------------------------------------------------------------
  // Evaluation
  // ---------------------------------------------------------------------

  /** Positions below `n` whose label is `c`. */
  function Labelled(labels: seq<int>, n: nat, c: int): nat
    requires n <= |labels|
  {
    if n == 0 then 0
    else Labelled(labels, n - 1, c) + (if labels[n - 1] == c then 1 else 0)
  }

  /** Positions below `n` whose label is `c` and whose prediction matches. */
  function Matched(labels: seq<int>, predictions: seq<int>, n: nat, c: int): nat
    requires n <= |labels| && n <= |predictions|
  {
    if n == 0 then 0
    else
      var here := if labels[n - 1] == c && predictions[n - 1] == c then 1 else 0;
      Matched(labels, predictions, n - 1, c) + here
  }

  /** The counts are the sizes of the corresponding index sets. */
  lemma CountsAreSizes(labels: seq<int>, predictions: seq<int>, n: nat, c: int)
    requires n <= |labels| && n <= |predictions|
    ensures Labelled(labels, n, c) == |set i | 0 <= i < n && labels[i] == c|
    ensures Matched(labels, predictions, n, c) == |set i | 0 <= i < n && labels[i] == c && predictions[i] == c|
  {
    LabelledIsSize(labels, n, c);
    MatchedIsSize(labels, predictions, n, c);
  }

  lemma {:induction false} LabelledIsSize(labels: seq<int>, n: nat, c: int)
    requires n <= |labels|
    ensures Labelled(labels, n, c) == |set i | 0 <= i < n && labels[i] == c|
  {
    if n > 0 {
      LabelledIsSize(labels, n - 1, c);
      var a := set i | 0 <= i < n - 1 && labels[i] == c;
      if labels[n - 1] == c {
        assert (set i | 0 <= i < n && labels[i] == c) == a + {n - 1};
      } else {
        assert (set i | 0 <= i < n && labels[i] == c) == a;
      }
    }
  }

  lemma {:induction false} MatchedIsSize(labels: seq<int>, predictions: seq<int>, n: nat, c: int)
    requires n <= |labels| && n <= |predictions|
    ensures Matched(labels, predictions, n, c) == |set i | 0 <= i < n && labels[i] == c && predictions[i] == c|
  {
    if n > 0 {
      MatchedIsSize(labels, predictions, n - 1, c);
      var b := set i | 0 <= i < n - 1 && labels[i] == c && predictions[i] == c;
      if labels[n - 1] == c && predictions[n - 1] == c {
        assert (set i | 0 <= i < n && labels[i] == c && predictions[i] == c) == b + {n - 1};
      } else {
        assert (set i | 0 <= i < n && labels[i] == c && predictions[i] == c) == b;
      }
    }
  }

  /** Matches never outnumber the labels they are drawn from, and every
      labelled position matches when the predictions are the labels. */
  lemma {:induction false} MatchedBounds(labels: seq<int>, predictions: seq<int>, n: nat, c: int)
    requires n <= |labels| && n <= |predictions|
    ensures Matched(labels, predictions, n, c) <= Labelled(labels, n, c)
    ensures labels[..n] == predictions[..n] ==> Matched(labels, predictions, n, c) == Labelled(labels, n, c)
  {
    if n > 0 {
      MatchedBounds(labels, predictions, n - 1, c);
      if labels[..n] == predictions[..n] {
        assert labels[..n - 1] == labels[..n][..n - 1];
        assert predictions[..n - 1] == predictions[..n][..n - 1];
        assert labels[n - 1] == labels[..n][n - 1];
        assert predictions[n - 1] == predictions[..n][n - 1];
      }
    }
  }

  /** The true-positive and true-negative rates. */
  datatype Rates = Rates(sensitivity: real, specificity: real)

  /** Counts positives, negatives and their matched predictions in one pass
      and divides; the division fails when there are no positive or no
      negative labels. */
  method Evaluate(labels: seq<int>, predictions: seq<int>) returns (r: Option<Rates>)
    requires |labels| <= |predictions|
    ensures r.Some? <==> Labelled(labels, |labels|, 1) > 0 && Labelled(labels, |labels|, 0) > 0
    ensures r.Some? ==>
      r.value.sensitivity == Matched(labels, predictions, |labels|, 1) as real / Labelled(labels, |labels|, 1) as real
    ensures r.Some? ==>
      r.value.specificity == Matched(labels, predictions, |labels|, 0) as real / Labelled(labels, |labels|, 0) as real
    ensures r.Some? ==> 0.0 <= r.value.sensitivity <= 1.0 && 0.0 <= r.value.specificity <= 1.0
  {
    var trueCorrect := 0.0;
    var trueCount := 0.0;
    var falseCorrect := 0.0;
    var falseCount := 0.0;
    for i := 0 to |labels|
      invariant trueCount == Labelled(labels, i, 1) as real
      invariant trueCorrect == Matched(labels, predictions, i, 1) as real
      invariant falseCount == Labelled(labels, i, 0) as real
      invariant falseCorrect == Matched(labels, predictions, i, 0) as real
    {
      if labels[i] == 1 {
        trueCount := trueCount + 1.0;
        if labels[i] == predictions[i] {
          trueCorrect := trueCorrect + 1.0;
        }
      }
      if labels[i] == 0 {
        falseCount := falseCount + 1.0;
        if labels[i] == predictions[i] {
          falseCorrect := falseCorrect + 1.0;
        }
      }
    }
    if trueCount == 0.0 || falseCount == 0.0 {
      return None;
    }
    MatchedBounds(labels, predictions, |labels|, 1);
    MatchedBounds(labels, predictions, |labels|, 0);
    UnitRate(Matched(labels, predictions, |labels|, 1), Labelled(labels, |labels|, 1));
    UnitRate(Matched(labels, predictions, |labels|, 0), Labelled(labels, |labels|, 0));
    r := Some(Rates(trueCorrect / trueCount, falseCorrect / falseCount));
  }

  lemma UnitRate(m: nat, t: nat)
    requires m <= t && t > 0
    ensures 0.0 <= m as real / t as real <= 1.0
  {
    assert m as real / t as real <= t as real / t as real;
  }

  /** Perfect predictions score `(1, 1)`. */
  lemma PerfectPredictions(labels: seq<int>)
    requires Labelled(labels, |labels|, 1) > 0 && Labelled(labels, |labels|, 0) > 0
    ensures Matched(labels, labels, |labels|, 1) as real / Labelled(labels, |labels|, 1) as real == 1.0
    ensures Matched(labels, labels, |labels|, 0) as real / Labelled(labels, |labels|, 0) as real == 1.0
  {
    MatchedBounds(labels, labels, |labels|, 1);
    MatchedBounds(labels, labels, |labels|, 0);
  }
}
