/** The fixed-capacity record queue that drops its oldest entry when full: a ledger that
    says what it holds, and the ring buffer that implements it. */
module RecordQueue {

  const CAPACITY: nat := 8

  /** A queue with its history: everything pushed since the last clear, how many were
      popped, how many were dropped, and which record comes after the last one popped. */
  datatype Ledger<T> = Ledger(queue: seq<T>, dropped: nat, pushed: seq<T>, popped: nat, first: int)

  function Push<T>(l: Ledger<T>, x: T): Ledger<T> {
    if |l.queue| >= CAPACITY
    then l.(queue := l.queue[1..] + [x], dropped := l.dropped + 1, pushed := l.pushed + [x])
    else l.(queue := l.queue + [x], pushed := l.pushed + [x])
  }

  function Pop<T>(l: Ledger<T>): Ledger<T> {
    if l.queue == [] then l
    else l.(queue := l.queue[1..], popped := l.popped + 1, first := |l.pushed| - |l.queue| + 1)
  }

  /** The queue holds exactly the newest eight of the records that no pop has passed (or
      all of them, if they are fewer), and every record pushed is popped, queued or dropped. */
  ghost predicate Balanced<T>(l: Ledger<T>) {
    && |l.pushed| == l.popped + |l.queue| + l.dropped
    && 0 <= l.first <= |l.pushed| && l.queue == Newest(l.pushed[l.first..])
  }

  lemma PushKeepsBalance<T>(l: Ledger<T>, x: T)
    requires Balanced(l)
    ensures Balanced(Push(l, x)) && Push(l, x).first == l.first
  {
    var r := Push(l, x);
    assert r.pushed[l.first..] == l.pushed[l.first..] + [x];
  }

  lemma PopKeepsBalance<T>(l: Ledger<T>)
    requires Balanced(l)
    ensures Balanced(Pop(l)) && Pop(l).pushed == l.pushed
    ensures if l.queue == [] then Pop(l) == l
            else 0 < Pop(l).first <= |l.pushed| && l.pushed[Pop(l).first - 1] == l.queue[0]
  {
    if l.queue != [] {
      var oldest := |l.pushed| - |l.queue|;
      assert l.queue == l.pushed[oldest..];
      assert l.pushed[oldest..][1..] == l.pushed[oldest + 1..];
    }
  }

  function PushAll<T>(l: Ledger<T>, xs: seq<T>): Ledger<T> {
    if xs == [] then l else Push(PushAll(l, xs[..|xs| - 1]), xs[|xs| - 1])
  }

  function Newest<T>(s: seq<T>): seq<T> {
    if |s| <= CAPACITY then s else s[|s| - CAPACITY..]
  }

  /** Any number of pushes leave the newest eight of what was queued and pushed, and drop
      exactly what did not fit. */
  lemma {:induction false} PushesKeepNewest<T>(l: Ledger<T>, xs: seq<T>)
    requires |l.queue| <= CAPACITY
    ensures var r := PushAll(l, xs);
            && r.queue == Newest(l.queue + xs)
            && r.dropped == l.dropped + |l.queue| + |xs| - |r.queue|
            && r.popped == l.popped
  {
    if xs == [] {
      assert l.queue + xs == l.queue;
    } else {
      var front := xs[..|xs| - 1];
      PushesKeepNewest(l, front);
      assert xs == front + [xs[|xs| - 1]];
      assert l.queue + xs == (l.queue + front) + [xs[|xs| - 1]];
    }
  }

  /** Place of entry `i` in a ring whose oldest entry is at `head`. */
  function Place(head: nat, i: nat): nat {
    if head + i < CAPACITY then head + i else head + i - CAPACITY
  }

  /** The ring buffer. */
  class Ring<T(0)> {
    const records: array<T>
    var head: nat
    var tail: nat
    var count: nat
    var dropped: nat
    ghost var contents: seq<T>
    ghost var pushed: seq<T>
    ghost var popped: nat
    ghost var first: int

    ghost function View(): Ledger<T>
      reads this
    {
      Ledger(contents, dropped, pushed, popped, first)
    }

    ghost predicate Holds()
      reads this, records
    {
      && records.Length == CAPACITY && head < CAPACITY && count <= CAPACITY
      && tail == Place(head, count)
      && |contents| == count && forall i | 0 <= i < count :: records[Place(head, i)] == contents[i]
    }

    ghost predicate Valid()
      reads this, records
    {
      Holds() && Balanced(View())
    }

    constructor ()
      ensures Valid() && View() == Ledger([], 0, [], 0, 0) && fresh(records)
    {
      records := new T[CAPACITY];
      head, tail, count, dropped := 0, 0, 0, 0;
      contents, pushed, popped, first := [], [], 0, 0;
    }

    /** Give up the oldest entry. */
    method Advance()
      requires Holds() && count > 0
      modifies this`head, this`count, this`contents
      ensures Holds() && count == old(count) - 1 && contents == old(contents)[1..]
    {
      ghost var was := head;
      head := (head + 1) % CAPACITY;
      count := count - 1;
      contents := contents[1..];
      assert forall i | 0 <= i < count :: Place(head, i) == Place(was, i + 1);
    }

    /** Write behind the newest entry. */
    method Put(x: T)
      requires Holds() && count < CAPACITY
      modifies this`tail, this`count, this`contents, records
      ensures Holds() && contents == old(contents) + [x]
    {
      records[tail] := x;
      tail := (tail + 1) % CAPACITY;
      count := count + 1;
      contents := contents + [x];
    }

    method PushRecord(x: T)
      requires Valid()
      modifies this, records
      ensures Valid() && View() == Push(old(View()), x)
    {
      PushKeepsBalance(View(), x);
      if count == CAPACITY {
        Advance();
        dropped := dropped + 1;
      }
      Put(x);
      pushed := pushed + [x];
    }

    method PopRecord() returns (ok: bool, x: T)
      requires Valid()
      modifies this
      ensures Valid() && View() == Pop(old(View()))
      ensures ok <==> old(contents) != []
      ensures ok ==> x == old(contents)[0]
    {
      PopKeepsBalance(View());
      x := records[head];
      if count == 0 {
        return false, x;
      }
      Advance();
      popped, first := popped + 1, |pushed| - count;
      return true, x;
    }

    method Clear()
      requires Valid()
      modifies this
      ensures Valid() && View() == Ledger([], 0, [], 0, 0)
    {
      head, tail, count, dropped := 0, 0, 0, 0;
      contents, pushed, popped, first := [], [], 0, 0;
    }
  }
}
