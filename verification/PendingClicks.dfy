/** packages/cache/src/realtime-clicks.ts: click reservations not yet drained into the database. */
module PendingClicks {
  import opened Wrappers

  const PENDING_TTL: nat := 86400

  /** A stored counter and the second at which it expires. */
  datatype Counter = Counter(value: int, deadline: int)

  /** `None` stands for a number that is not finite. */
  function NormalizeAmount(amount: Option<real>): int {
    if amount.None? || amount.value <= 0.0 then 1 else amount.value.Floor
  }

  /** What a reader sees: never negative, zero when missing or expired. */
  function Pending(counter: Option<Counter>, now: int): (p: nat)
    ensures p > 0 ==> counter.Some? && now < counter.value.deadline && counter.value.value == p
  {
    if counter.Some? && now < counter.value.deadline && counter.value.value > 0 then counter.value.value else 0
  }

  function Drained(pending: int, amount: int): (p: nat)
    ensures pending - amount <= p && (p > 0 ==> p == pending - amount)
  {
    if pending - amount <= 0 then 0 else pending - amount
  }

  /** A usable amount loses its fraction; what is no positive number counts as one. */
  lemma NormalizeAmountIs(amount: Option<real>)
    ensures var n := NormalizeAmount(amount);
            if amount.Some? && amount.value > 0.0 then n >= 0 && n as real <= amount.value < n as real + 1.0
            else n == 1
  {
  }

  /** A counter is seen for a day, unless it is zero or less. */
  lemma PendingLasts(value: int, now: int, t: int)
    ensures Pending(Some(Counter(value, now + PENDING_TTL)), t) ==
            if value > 0 && t < now + 86400 then value else 0
  {
  }

  class PendingClickCounter {
    var counter: Option<Counter>
    var now: int

    /** A counter that a drain would have deleted is never left behind. */
    ghost predicate Valid()
      reads this
    {
      counter.Some? ==> counter.value.value >= 0
    }

    constructor (start: int)
      ensures Valid() && counter == None && now == start
    {
      counter := None;
      now := start;
    }

    method Increment(amount: Option<real>) returns (next: int)
      requires Valid()
      modifies this`counter
      ensures Valid()
      ensures next == old(Pending(counter, now)) + NormalizeAmount(amount)
      ensures Pending(counter, now) == next
      ensures counter.Some? && counter.value.deadline == now + PENDING_TTL
    {
      var n := NormalizeAmount(amount);
      var current := 0;
      if counter.Some? && now < counter.value.deadline {
        current := counter.value.value;
      }
      next := current + n;
      counter := Some(Counter(next, now + PENDING_TTL));
    }

    /** Drains at most what is there, and deletes the key instead of storing zero. */
    method Drain(amount: Option<real>) returns (remaining: int)
      requires Valid()
      modifies this`counter
      ensures Valid()
      ensures remaining == Drained(old(Pending(counter, now)), NormalizeAmount(amount))
      ensures Pending(counter, now) == remaining
      ensures remaining == 0 ==> counter == None
    {
      var n := NormalizeAmount(amount);
      var current := 0;
      if counter.Some? && now < counter.value.deadline {
        current := counter.value.value;
      }
      remaining := current - n;
      if remaining <= 0 {
        counter := None;
        return 0;
      }
      counter := Some(Counter(remaining, now + PENDING_TTL));
    }

    method Get() returns (pending: nat)
      ensures pending == Pending(counter, now)
    {
      if counter.None? || counter.value.deadline <= now {
        return 0;
      }
      if counter.value.value > 0 {
        return counter.value.value;
      }
      return 0;
    }
  }
}
