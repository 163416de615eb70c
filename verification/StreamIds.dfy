/**
 The ids that the in-memory client makes up itself (generateStreamId of packages/cache/src/mock.ts): the
 milliseconds of the clock, a dash, and a counter; here the counter of one stream, one more for each entry.
 */
module StreamIds {
  import opened Decimals
  import opened StreamGroups

  function Generated(time: nat, counter: nat): string {
    Digits(time) + "-" + Digits(counter)
  }

  /** The ids of entries added at these times, from a first value of the counter on. */
  function GeneratedIds(times: seq<nat>, first: nat): (ids: seq<string>)
    ensures |ids| == |times| && forall k :: 0 <= k < |ids| ==> ids[k] == Generated(times[k], first + k)
  {
    seq(|times|, k requires 0 <= k < |times| => Generated(times[k], first + k))
  }

  // ---- numbers compared as strings ----

  lemma {:induction false} LessAfterPrefix(p: string, a: string, b: string)
    ensures Less(p + a, p + b) <==> Less(a, b)
    decreases |p|
  {
    if p == "" {
      assert p + a == a && p + b == b;
    } else {
      assert (p + a)[1..] == p[1..] + a && (p + b)[1..] == p[1..] + b;
      LessAfterPrefix(p[1..], a, b);
    }
  }

  lemma DigitsRise(a: nat, b: nat)
    requires a < b < 10
    ensures Digit(a) < Digit(b)
  {
  }

  /** Of two numbers with as many digits, the smaller one is less, whatever follows. */
  lemma {:induction false} ShorterIsLess(a: nat, b: nat, x: string, y: string)
    requires a < b && |Digits(a)| == |Digits(b)|
    ensures Less(Digits(a) + x, Digits(b) + y)
    decreases b
  {
    DigitsStart(a);
    DigitsStart(b);
    if b < 10 {
      DigitsRise(a, b);
    } else {
      var p, q := Digits(a / 10), Digits(b / 10);
      var u, v := [Digit(a % 10)] + x, [Digit(b % 10)] + y;
      assert Digits(a) + x == p + u && Digits(b) + y == q + v;
      if a / 10 == b / 10 {
        DigitsRise(a % 10, b % 10);
        LessAfterPrefix(p, u, v);
      } else {
        ShorterIsLess(a / 10, b / 10, u, v);
      }
    }
  }

  lemma NineAtTheEnd(n: nat)
    requires n >= 10 && |Digits(n)| != |Digits(n + 1)|
    ensures (n + 1) / 10 == n / 10 + 1
  {
    assert (n + 1) / 10 == n / 10 || (n + 1) / 10 == n / 10 + 1;
  }

  /** A number with one digit more than the one before it starts with a one, and that one with a nine. */
  lemma {:induction false} NextDigit(n: nat)
    requires |Digits(n)| != |Digits(n + 1)|
    ensures Digits(n)[0] == '9' && Digits(n + 1)[0] == '1'
    decreases n
  {
    DigitsStart(n);
    DigitsStart(n + 1);
    if n >= 10 {
      NineAtTheEnd(n);
      DigitsStart(n / 10);
      DigitsStart(n / 10 + 1);
      NextDigit(n / 10);
    }
  }

  lemma {:induction false} FirstDigit(n: nat)
    requires n > 0
    ensures |Digits(n)| > 0 && '1' <= Digits(n)[0]
    decreases n
  {
    if n >= 10 {
      FirstDigit(n / 10);
    }
  }

  // ---- exactly when the generated ids increase ----

  predicate NotBackwards(times: seq<nat>) {
    forall i, j :: 0 <= i < j < |times| ==> times[i] <= times[j]
  }

  /** Times after 1970 with as many digits each; 13 of them from September 2001 to November 2286. */
  predicate OneLength(times: seq<nat>) {
    && (forall i :: 0 <= i < |times| ==> times[i] > 0)
    && (forall i, j :: 0 <= i < j < |times| ==> |Digits(times[i])| == |Digits(times[j])|)
  }

  /** No two entries of one millisecond have counters with a different number of digits. */
  predicate NoCarry(times: seq<nat>, first: nat) {
    forall i, j :: 0 <= i < j < |times| && times[i] == times[j] ==> |Digits(first + i)| == |Digits(first + j)|
  }

  lemma GeneratedAboveStart(time: nat, counter: nat)
    requires time > 0
    ensures Less(START, Generated(time, counter))
  {
    FirstDigit(time);
    assert Generated(time, counter)[0] == Digits(time)[0];
  }

  lemma LaterIsLess(t: nat, u: nat, a: nat, b: nat)
    requires t <= u && a < b && |Digits(t)| == |Digits(u)| && (t == u ==> |Digits(a)| == |Digits(b)|)
    ensures Less(Generated(t, a), Generated(u, b))
  {
    var x, y := "-" + Digits(a), "-" + Digits(b);
    assert Generated(t, a) == Digits(t) + x && Generated(u, b) == Digits(u) + y;
    if t < u {
      ShorterIsLess(t, u, x, y);
    } else {
      ShorterIsLess(a, b, "", "");
      assert Digits(a) + "" == Digits(a) && Digits(b) + "" == Digits(b);
      LessAfterPrefix("-", Digits(a), Digits(b));
      LessAfterPrefix(Digits(t), x, y);
    }
  }

  lemma CarryIsNotLess(t: nat, a: nat)
    requires |Digits(a)| != |Digits(a + 1)|
    ensures !Less(Generated(t, a), Generated(t, a + 1))
  {
    DigitsStart(a);
    DigitsStart(a + 1);
    NextDigit(a);
    var x, y := "-" + Digits(a), "-" + Digits(a + 1);
    assert Generated(t, a) == Digits(t) + x && Generated(t, a + 1) == Digits(t) + y;
    FirstDecides(Digits(a), Digits(a + 1));
    LessAfterPrefix("-", Digits(a), Digits(a + 1));
    LessAfterPrefix(Digits(t), x, y);
  }

  lemma FirstDecides(a: string, b: string)
    requires a != "" && b != "" && b[0] < a[0]
    ensures !Less(a, b)
  {
  }

  /** Where the number of digits changes between two counters, it changes from one to the next. */
  lemma {:induction false} CarryBetween(a: nat, b: nat) returns (c: nat)
    requires a < b && |Digits(a)| != |Digits(b)|
    ensures a <= c < b && |Digits(c)| != |Digits(c + 1)|
    decreases b
  {
    if |Digits(b - 1)| != |Digits(b)| {
      c := b - 1;
    } else {
      c := CarryBetween(a, b - 1);
    }
  }

  lemma NoCarryIncreases(times: seq<nat>, first: nat)
    requires NotBackwards(times) && OneLength(times) && NoCarry(times, first)
    ensures Increasing(GeneratedIds(times, first))
  {
    var ids := GeneratedIds(times, first);
    forall i | 0 <= i < |ids| ensures Less(START, ids[i]) {
      GeneratedAboveStart(times[i], first + i);
    }
    forall i, j | 0 <= i < j < |ids| ensures Less(ids[i], ids[j]) {
      LaterIsLess(times[i], times[j], first + i, first + j);
    }
  }

  lemma CarryDoesNotIncrease(times: seq<nat>, first: nat, i: nat, j: nat)
    requires NotBackwards(times) && i < j < |times| && times[i] == times[j]
    requires |Digits(first + i)| != |Digits(first + j)|
    ensures !Increasing(GeneratedIds(times, first))
  {
    var c := CarryBetween(first + i, first + j);
    SameMillisecond(times, i, c - first, j);
    NextIsNotAbove(times, first, c - first, c);
  }

  lemma SameMillisecond(times: seq<nat>, i: nat, k: nat, j: nat)
    requires NotBackwards(times) && i <= k < j < |times| && times[i] == times[j]
    ensures times[k] == times[k + 1]
  {
    assert i == k || times[i] <= times[k];
    assert k + 1 == j || times[k + 1] <= times[j];
  }

  lemma NextIsNotAbove(times: seq<nat>, first: nat, k: nat, c: nat)
    requires k + 1 < |times| && times[k] == times[k + 1] && c == first + k
    requires |Digits(c)| != |Digits(c + 1)|
    ensures !Increasing(GeneratedIds(times, first))
  {
    var ids := GeneratedIds(times, first);
    CarryIsNotLess(times[k], c);
    assert ids[k] == Generated(times[k], c) && ids[k + 1] == Generated(times[k], c + 1);
  }

  /** The generated ids increase exactly if no millisecond sees the counter gain a digit. */
  lemma GeneratedIdsIncreaseIff(times: seq<nat>, first: nat)
    requires NotBackwards(times) && OneLength(times)
    ensures Increasing(GeneratedIds(times, first)) <==> NoCarry(times, first)
  {
    if NoCarry(times, first) {
      NoCarryIncreases(times, first);
    } else {
      var i, j :| 0 <= i < j < |times| && times[i] == times[j] && |Digits(first + i)| != |Digits(first + j)|;
      CarryDoesNotIncrease(times, first, i, j);
    }
  }

  /**
   Every entry added under generated ids is in exactly one place in every run, if and only if the counter
   gains no digit between two entries of one millisecond.
   */
  lemma GeneratedIdsConserveIff(times: seq<nat>, first: nat)
    requires NotBackwards(times) && OneLength(times)
    ensures Conserves(GeneratedIds(times, first)) <==> NoCarry(times, first)
  {
    GeneratedIdsIncreaseIff(times, first);
    ConservesIff(GeneratedIds(times, first));
  }
}
