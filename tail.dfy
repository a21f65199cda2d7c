/**
 * The polling loop of a running monitor (the body of `_observer_thread_func`).
 * File sizes and contents are inputs: a file is the character sequence it holds
 * at the moment its size is sampled, and its size is that sequence's length.
 */
module Tail {
  import opened Wrappers
  import opened TextLines

  /**
   * What one iteration of the poll loop observes: the file's content when the
   * size is sampled at the top of the iteration, and its content when the size
   * is sampled again after the sleep (which is also what is read).
   */
  datatype Cycle = Cycle(atFirstSample: string, atSecondSample: string)

  /**
   * One iteration: when the second size exceeds the first, the lines from the
   * first size onward are communicated as one item; otherwise nothing is.
   */
  function TailStep(c: Cycle): (r: Option<seq<string>>)
    ensures r.Some? <==> |c.atSecondSample| > |c.atFirstSample|
    ensures r.Some? ==> r.value != [] && WellFormedLines(r.value)
    ensures r.Some? ==> Concat(r.value) == c.atSecondSample[|c.atFirstSample|..]
  {
    var lastSize, currentSize := |c.atFirstSample|, |c.atSecondSample|;
    if currentSize > lastSize then Some(ReadLines(c.atSecondSample[lastSize..])) else None
  }

  /**
   * On a file that was only appended to during the cycle, an item is sent
   * exactly when something was appended, and the item's lines are precisely
   * the appended text, in file order.
   */
  lemma TailStepOnAppend(c: Cycle)
    requires c.atFirstSample <= c.atSecondSample
    ensures TailStep(c).Some? <==> c.atFirstSample != c.atSecondSample
    ensures TailStep(c).Some? ==> c.atFirstSample + Concat(TailStep(c).value) == c.atSecondSample
  {
  }

  /** All lines of a sequence of communicated items, in the order they were sent. */
  function Flatten(items: seq<seq<string>>): seq<string>
  {
    if items == [] then [] else Flatten(items[..|items| - 1]) + items[|items| - 1]
  }

  /** A history of samples of a file that is only ever appended to. */
  predicate Grows(h: seq<string>)
  {
    forall i :: 0 <= i < |h| - 1 ==> h[i] <= h[i + 1]
  }

  // ---------------------------------------------------------------------------
  // The loop as written: the watermark is re-sampled at the top of every
  // iteration, so the assignment after a read never carries over.

  /** The items the loop as written sends over the given cycles. */
  function AsWrittenItems(cycles: seq<Cycle>): seq<seq<string>>
  {
    if cycles == [] then []
    else
      var earlier := AsWrittenItems(cycles[..|cycles| - 1]);
      match TailStep(cycles[|cycles| - 1])
      case Some(lines) => earlier + [lines]
      case None => earlier
  }

  /**
   * The poll loop as written, run for as many iterations as there are cycles
   * (the loop runs while the monitor's status reads RUNNING). Returns what it
   * communicated, one entry per item.
   */
  method PollAsWritten(cycles: seq<Cycle>) returns (sent: seq<seq<string>>)
    ensures sent == AsWrittenItems(cycles)
    ensures |sent| <= |cycles|
  {
    sent := [];
    var i := 0;
    while i < |cycles|
      invariant 0 <= i <= |cycles|
      invariant sent == AsWrittenItems(cycles[..i])
      invariant |sent| <= i
    {
      var lastSize := |cycles[i].atFirstSample|;
      var currentSize := |cycles[i].atSecondSample|;
      if currentSize > lastSize {
        var newLines := ReadLines(cycles[i].atSecondSample[lastSize..]);
        sent := sent + [newLines];
        lastSize := currentSize;
      }
      assert cycles[..i + 1][..i] == cycles[..i];
      i := i + 1;
    }
    assert cycles[..i] == cycles;
  }

  /**
   * The loop as written loses appended text: the file grows from "" to
   * "a\n" within the first iteration and to "a\nb\n" between the two
   * iterations, and "b\n" is never sent.
   */
  lemma AsWrittenLosesAppendBetweenCycles()
    ensures Grows(["", "a\n", "a\nb\n", "a\nb\n"])
    ensures AsWrittenItems([Cycle("", "a\n"), Cycle("a\nb\n", "a\nb\n")]) == [["a\n"]]
    ensures Concat(Flatten(AsWrittenItems([Cycle("", "a\n"), Cycle("a\nb\n", "a\nb\n")]))) != "a\nb\n"
  {
    var c0, c1 := Cycle("", "a\n"), Cycle("a\nb\n", "a\nb\n");
    assert ReadLines("a\n") == ["a\n"] by {
      assert FirstLineLength("a\n") == 2;
      assert "a\n"[..2] == "a\n";
      assert "a\n"[2..] == [];
      assert ReadLines([]) == [];
    }
    assert [c0, c1][..1] == [c0];
    assert AsWrittenItems([c0]) == [["a\n"]] by {
      assert [c0][..0] == [];
    }
    assert Concat(["a\n"]) == "a\n";
  }

  // ---------------------------------------------------------------------------
  // The evidently intended loop: the size is sampled once before the loop and
  // the watermark advances to the new size whenever the file grew.

  /** The watermark after the given size samples, starting from the initial content. */
  function Watermark(initial: string, samples: seq<string>): (w: nat)
    ensures w >= |initial|
  {
    if samples == [] then |initial|
    else
      var w := Watermark(initial, samples[..|samples| - 1]);
      var currentSize := |samples[|samples| - 1]|;
      if currentSize > w then currentSize else w
  }

  /** The items the watermark loop sends over the given size samples. */
  function WatermarkItems(initial: string, samples: seq<string>): seq<seq<string>>
  {
    if samples == [] then []
    else
      var prior := samples[..|samples| - 1];
      var w := Watermark(initial, prior);
      var current := samples[|samples| - 1];
      if |current| > w then WatermarkItems(initial, prior) + [ReadLines(current[w..])]
      else WatermarkItems(initial, prior)
  }

  /** The poll loop with a watermark kept across iterations, one sample per iteration. */
  method PollWatermark(initial: string, samples: seq<string>) returns (sent: seq<seq<string>>)
    ensures sent == WatermarkItems(initial, samples)
  {
    sent := [];
    var lastSize := |initial|;
    var i := 0;
    while i < |samples|
      invariant 0 <= i <= |samples|
      invariant lastSize == Watermark(initial, samples[..i])
      invariant sent == WatermarkItems(initial, samples[..i])
    {
      var currentSize := |samples[i]|;
      assert samples[..i + 1][..i] == samples[..i];
      if currentSize > lastSize {
        var newLines := ReadLines(samples[i][lastSize..]);
        sent := sent + [newLines];
        lastSize := currentSize;
      }
      i := i + 1;
    }
    assert samples[..i] == samples;
  }

  lemma {:induction false} FlattenAppend(items: seq<seq<string>>, item: seq<string>)
    ensures Flatten(items + [item]) == Flatten(items) + item
  {
  }

  /** The most recent sample of a history that starts with `initial`. */
  function Latest(initial: string, samples: seq<string>): string
  {
    if samples == [] then initial else samples[|samples| - 1]
  }

  lemma GrowsBefore(initial: string, samples: seq<string>)
    requires samples != [] && Grows([initial] + samples)
    ensures Grows([initial] + samples[..|samples| - 1])
    ensures Latest(initial, samples[..|samples| - 1]) <= samples[|samples| - 1]
  {
    var h := [initial] + samples;
    assert [initial] + samples[..|samples| - 1] == h[..|h| - 1];
    assert h[|h| - 2] == Latest(initial, samples[..|samples| - 1]);
    assert h[|h| - 1] == samples[|samples| - 1];
    assert h[|h| - 2] <= h[|h| - 1];
  }

  lemma AppendedSuffix(initial: string, sent: string, before: string, current: string)
    requires initial + sent == before && before <= current
    ensures initial + (sent + current[|before|..]) == current
  {
  }

  /**
   * With the watermark kept, nothing appended is lost or repeated: over any
   * append-only history the lines sent spell out exactly the text appended
   * after the initial sample, and the watermark is the latest size. Each
   * sample here is both the size compared and the content read, so in the
   * program the watermark must advance to the position the read ended at
   * (`f.tell()`); advancing it to the size sampled before the read would send
   * again whatever was appended between that sample and the read.
   */
  lemma {:induction false} WatermarkSendsEverything(initial: string, samples: seq<string>)
    requires Grows([initial] + samples)
    ensures Watermark(initial, samples) == |Latest(initial, samples)|
    ensures initial + Concat(Flatten(WatermarkItems(initial, samples))) == Latest(initial, samples)
  {
    if samples == [] {
      assert initial + [] == initial;
    } else {
      var prior := samples[..|samples| - 1];
      var current := samples[|samples| - 1];
      GrowsBefore(initial, samples);
      WatermarkSendsEverything(initial, prior);
      var before := Latest(initial, prior);
      var w := Watermark(initial, prior);
      var soFar := WatermarkItems(initial, prior);
      var sentSoFar := Concat(Flatten(soFar));
      assert initial + sentSoFar == before;
      if |current| > w {
        var lines := ReadLines(current[w..]);
        assert WatermarkItems(initial, samples) == soFar + [lines];
        FlattenAppend(soFar, lines);
        ConcatAppend(Flatten(soFar), lines);
        AppendedSuffix(initial, sentSoFar, before, current);
      } else {
        assert current == before;
        assert WatermarkItems(initial, samples) == soFar;
      }
    }
  }
}
