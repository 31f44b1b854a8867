/** display_progress.c: the progress bar, in unsigned 32-bit arithmetic. */
module Progress {

  import Arithmetic

  const UINT := 0x1_0000_0000
  const BAR_WIDTH := 50

  // cur * scale / total as the code computes it.
  function Scaled(cur: nat, scale: nat, total: nat): nat
    requires total > 0
  {
    (cur * scale) % UINT / total
  }

  // The same with no regard to wrapping.
  function TrueScaled(cur: nat, scale: nat, total: nat): nat
    requires total > 0
  {
    cur * scale / total
  }

  lemma TrueIsQuotient(cur: nat, scale: nat, total: nat)
    requires total > 0
    ensures var q := TrueScaled(cur, scale, total); q * total <= cur * scale < q * total + total
  {
    var p := cur * scale;
    assert p == (p / total) * total + p % total;
  }

  /** The product wraps at 2^32, and the quotient is rounded down. */
  lemma ScaledMeans(cur: nat, scale: nat, total: nat)
    requires total > 0
    ensures var q := Scaled(cur, scale, total);
            q * total <= (cur * scale) % 0x1_0000_0000 < q * total + total
  {
    var p := (cur * scale) % UINT;
    assert p == (p / total) * total + p % total;
  }

  // The computation of one figure in unsigned int.
  method Figure(cur: nat, scale: nat, total: nat) returns (figure: nat)
    requires total > 0
    ensures figure == Scaled(cur, scale, total)
  {
    var product := (cur * scale) % UINT;
    figure := product / total;
  }

  // What is written to stdout: a character, or a percentage as printf(" %d%%\r") formats it.
  datatype Output = Char(c: char) | Percent(n: nat)

  function Repeat(c: char, n: nat): (s: seq<Output>)
    ensures |s| == n
  {
    seq(n, i => Char(c))
  }

  // A bar with n of its columns filled.
  function Bar(n: nat): seq<Output> {
    [Char('|')] + Repeat('*', n) + (if n <= BAR_WIDTH then Repeat(' ', BAR_WIDTH - n) else []) + [Char('|')]
  }

  /** What the bar looks like: the frame, the stars from the left, and blanks up to fifty columns; beyond its
      width there are stars only. */
  lemma BarLook(n: nat)
    ensures var b := Bar(n);
            && |b| == (if n <= 50 then 52 else n + 2) && b[0] == Char('|') == b[|b| - 1]
            && (forall i :: 1 <= i <= n ==> b[i] == Char('*'))
            && (forall i :: n < i <= 50 ==> b[i] == Char(' '))
  {
  }

  /** A line is a bar with its percentage, and nothing at all when the percentage is the one shown last. */
  lemma LineLook(percent: nat, barLen: nat, last: nat)
    ensures percent == last ==> LineOf(percent, barLen, last) == []
    ensures percent != last ==>
      var line := LineOf(percent, barLen, last);
      line[..|line| - 1] == Bar(barLen) && line[|line| - 1] == Percent(percent)
  {
  }

  // What is printed for these figures when the percentage last shown is last.
  function LineOf(percent: nat, barLen: nat, last: nat): seq<Output> {
    if percent == last then [] else Bar(barLen) + [Percent(percent)]
  }

  // The state of the display at some point.
  datatype Snapshot = Snapshot(last: nat, out: seq<Output>, calls: seq<(nat, nat)>)

  class Display {
    // The static variable, and what has been written to stdout.
    var last: nat
    ghost var out: seq<Output>

    // The calls so far.
    ghost var calls: seq<(nat, nat)>

    ghost function Now(): Snapshot
      reads this
    {
      Snapshot(last, out, calls)
    }

    constructor ()
      ensures last == 0 && out == [] && calls == []
    {
      last := 0;
      out := [];
      calls := [];
    }

    method Put(o: Output)
      modifies this`out
      ensures out == old(out) + [o]
    {
      out := out + [o];
    }

    // for (i = start; i < end; i++) putchar(c)
    method PutRun(c: char, start: nat, end: nat)
      modifies this`out
      ensures out == old(out) + if start <= end then Repeat(c, end - start) else []
    {
      var i := start;
      while i < end
        invariant start <= i && (i <= end || i == start)
        invariant out == old(out) + Repeat(c, i - start)
      {
        Put(Char(c));
        i := i + 1;
      }
    }

    method PutBar(barLen: nat)
      modifies this`out
      ensures out == old(out) + Bar(barLen)
    {
      Put(Char('|'));
      PutRun('*', 0, barLen);
      PutRun(' ', barLen, BAR_WIDTH);
      Put(Char('|'));
    }

    method Show(cur: nat, total: nat)
      requires cur < UINT && total < UINT
      modifies this
      ensures calls == old(calls) + [(cur, total)]
      ensures total == 0 ==> last == old(last) && out == old(out)
      ensures total > 0 ==>
        && last == Scaled(cur, 100, total)
        && out == old(out) + LineOf(Scaled(cur, 100, total), Scaled(cur, BAR_WIDTH, total), old(last))
    {
      calls := calls + [(cur, total)];
      if total == 0 {
        return;
      }
      var percent := Figure(cur, 100, total);
      if percent == last {
        return;
      }
      var barLen := Figure(cur, BAR_WIDTH, total);
      PutBar(barLen);
      Put(Percent(percent));
      last := percent;
    }
  }

  /** Up to the total the bar has exactly its width, whether or not the product wraps. */
  lemma BarWidth(cur: nat, total: nat)
    requires 0 < total && cur <= total
    ensures Scaled(cur, BAR_WIDTH, total) <= BAR_WIDTH
    ensures |Bar(Scaled(cur, BAR_WIDTH, total))| == BAR_WIDTH + 2
  {
    ScaledBound(cur, BAR_WIDTH, total);
  }

  lemma ScaledBound(cur: nat, scale: nat, total: nat)
    requires 0 < total && cur <= total
    ensures Scaled(cur, scale, total) <= scale
  {
    var p := cur * scale;
    Arithmetic.MulMonotone(cur, total, scale);
    Arithmetic.DivBound(p % UINT, scale, total);
  }

  /** While the product does not wrap, the figure shown is the true one. */
  lemma ScaledExact(cur: nat, scale: nat, total: nat)
    requires 0 < total && cur <= total && cur * scale < UINT
    ensures Scaled(cur, scale, total) == TrueScaled(cur, scale, total) == cur * scale / total <= scale
  {
    var p := cur * scale;
    assert p % UINT == p;
    ScaledBound(cur, scale, total);
  }

  // What a call shows when nothing wraps: the true percentage, and the true part of the bar.
  function TrueLine(last: nat, cur: nat, total: nat): seq<Output>
    requires total > 0
  {
    LineOf(TrueScaled(cur, 100, total), TrueScaled(cur, BAR_WIDTH, total), last)
  }

  // After these calls come only calls with this total and cur up to it.
  predicate Continues(before: seq<(nat, nat)>, calls: seq<(nat, nat)>, total: nat)
    decreases |calls|
  {
    calls == before
    || (|calls| > |before| && calls[|calls| - 1].0 <= calls[|calls| - 1].1 == total
        && Continues(before, calls[..|calls| - 1], total))
  }

  // The percentage last shown, and what is printed, by the calls after the first n of them, with no
  // regard to wrapping; last was shown before.
  function TrueLast(last: nat, calls: seq<(nat, nat)>, n: nat, total: nat): nat
    requires total > 0
  {
    if |calls| <= n then last else TrueScaled(calls[|calls| - 1].0, 100, total)
  }

  function TrueLines(last: nat, calls: seq<(nat, nat)>, n: nat, total: nat): seq<Output>
    requires total > 0
    decreases |calls|
  {
    if |calls| <= n then []
    else
      var before := calls[..|calls| - 1];
      TrueLines(last, before, n, total) + TrueLine(TrueLast(last, before, n, total), calls[|calls| - 1].0, total)
  }

  // From one point to the other the display has shown the true progress towards the total, and nothing else.
  ghost predicate OnCourse(a: Snapshot, b: Snapshot, total: nat)
    requires total > 0
  {
    && |a.calls| <= |b.calls| && Continues(a.calls, b.calls, total)
    && b.last == TrueLast(a.last, b.calls, |a.calls|, total)
    && b.out == a.out + TrueLines(a.last, b.calls, |a.calls|, total)
  }

  /** Spelled out: what has been printed since, what was shown last, and that no call went beyond the total. */
  lemma OnCourseMeans(a: Snapshot, b: Snapshot, total: nat)
    requires total > 0 && OnCourse(a, b, total)
    ensures b.out == a.out + TrueLines(a.last, b.calls, |a.calls|, total)
    ensures b.last == if |b.calls| == |a.calls| then a.last else b.calls[|b.calls| - 1].0 * 100 / total
    ensures a.calls <= b.calls
    ensures forall i :: |a.calls| <= i < |b.calls| ==> b.calls[i].0 <= b.calls[i].1 == total
  {
    ContinuesMeans(a.calls, b.calls, total);
  }

  lemma {:induction false} ContinuesMeans(before: seq<(nat, nat)>, calls: seq<(nat, nat)>, total: nat)
    requires Continues(before, calls, total)
    ensures before <= calls
    ensures forall i :: |before| <= i < |calls| ==> calls[i].0 <= calls[i].1 == total
    decreases |calls|
  {
    if calls != before {
      ContinuesMeans(before, calls[..|calls| - 1], total);
    }
  }

  lemma OnCourseStart(a: Snapshot, total: nat)
    requires total > 0
    ensures OnCourse(a, a, total)
  {
    assert TrueLines(a.last, a.calls, |a.calls|, total) == [];
  }

  /** As long as the total times 100 does not wrap, another call shows the true progress: the true percentage,
      at most 100, and a bar of exactly its width. */
  lemma OnCourseNext(a: Snapshot, b: Snapshot, c: Snapshot, cur: nat, total: nat)
    requires 0 < total && total * 100 < UINT && cur <= total && OnCourse(a, b, total)
    requires c.calls == b.calls + [(cur, total)] && c.last == Scaled(cur, 100, total)
    requires c.out == b.out + LineOf(Scaled(cur, 100, total), Scaled(cur, BAR_WIDTH, total), b.last)
    ensures OnCourse(a, c, total)
    ensures c.last == TrueScaled(cur, 100, total) <= 100 && |Bar(TrueScaled(cur, BAR_WIDTH, total))| == BAR_WIDTH + 2
  {
    LineIsTrue(cur, total);
    assert c.calls[..|b.calls|] == b.calls;
    NextTrueLine(a.last, b.calls, cur, |a.calls|, total);
    Assoc(a.out, TrueLines(a.last, b.calls, |a.calls|, total), TrueLine(b.last, cur, total));
  }

  lemma NextTrueLine(last: nat, calls: seq<(nat, nat)>, cur: nat, n: nat, total: nat)
    requires total > 0 && n <= |calls|
    ensures TrueLast(last, calls + [(cur, total)], n, total) == TrueScaled(cur, 100, total)
    ensures TrueLines(last, calls + [(cur, total)], n, total)
         == TrueLines(last, calls, n, total) + TrueLine(TrueLast(last, calls, n, total), cur, total)
  {
    assert (calls + [(cur, total)])[..|calls|] == calls;
  }

  lemma Assoc(a: seq<Output>, b: seq<Output>, c: seq<Output>)
    ensures a + b + c == a + (b + c)
  {
  }

  lemma LineIsTrue(cur: nat, total: nat)
    requires 0 < total && cur <= total && total * 100 < UINT
    ensures Scaled(cur, 100, total) == TrueScaled(cur, 100, total) == cur * 100 / total <= 100
    ensures Scaled(cur, BAR_WIDTH, total) == TrueScaled(cur, BAR_WIDTH, total)
    ensures |Bar(TrueScaled(cur, BAR_WIDTH, total))| == BAR_WIDTH + 2
  {
    ScaledExact(cur, 100, total);
    ScaledExact(cur, BAR_WIDTH, total);
    BarWidth(cur, total);
  }

  /** At the end of a load the bar reads 100 exactly when the product does not wrap. */
  lemma FullBar(total: nat)
    requires 0 < total < UINT
    ensures Scaled(total, 100, total) == 100 <==> total * 100 < UINT
  {
    var p := total * 100;
    if p < UINT {
      assert p % UINT == p;
      Arithmetic.DivModUnique(p, 100, 0, total);
    } else {
      assert p % UINT < p;
      Arithmetic.DivBelow(p % UINT, 100, total);
    }
  }
}
