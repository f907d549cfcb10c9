/** Cursor-following over a paginated endpoint, as both pagination loops of the client
    do it. The service is an oracle: the j-th fetch of one walk is answered by
    `pages[j]`, `None` standing for a failed or empty answer, and every fetch past the
    end of `pages` gets no answer. This keeps each walk finite. */
module Paging {
  import opened Wrappers

  /** The pages a walk collects: the first answer, then each next answer for as long as
      the page before it names a further cursor and the fetch is answered. */
  function Run<P>(pages: seq<Option<P>>, continues: P -> bool): (run: seq<P>)
    ensures |run| <= |pages|
    ensures forall j :: 0 <= j < |run| ==> pages[j] == Some(run[j])
    ensures forall j :: 0 <= j < |run| - 1 ==> continues(run[j])
    ensures |run| < |pages| && (run == [] || continues(run[|run| - 1])) ==> pages[|run|].None?
  {
    if |pages| == 0 || pages[0].None? then []
    else if !continues(pages[0].value) then [pages[0].value]
    else [pages[0].value] + Run(pages[1..], continues)
  }

  /** Given pages that are all answered and each name a cursor except the last, the
      walk collects all of them. */
  lemma {:induction false} RunCollectsAll<P>(pages: seq<Option<P>>, continues: P -> bool)
    requires forall j :: 0 <= j < |pages| ==> pages[j].Some?
    requires forall j :: 0 <= j < |pages| - 1 ==> continues(pages[j].value)
    requires pages != [] ==> !continues(pages[|pages| - 1].value)
    ensures |Run(pages, continues)| == |pages|
  {
    if |pages| > 1 {
      assert continues(pages[0].value);
      RunCollectsAll(pages[1..], continues);
    }
  }

  /** The items of the pages of `run`, page after page. */
  function Gather<P, T>(run: seq<P>, items: P -> seq<T>): (r: seq<T>)
    ensures run == [] ==> r == []
  {
    if run == [] then [] else items(run[0]) + Gather(run[1..], items)
  }

  function TotalLength<P, T>(run: seq<P>, items: P -> seq<T>): nat {
    if run == [] then 0 else |items(run[0])| + TotalLength(run[1..], items)
  }

  /** Gathering adds no item and drops none: its length is the sum of the page sizes. */
  lemma {:induction false} GatherLength<P, T>(run: seq<P>, items: P -> seq<T>)
    ensures |Gather(run, items)| == TotalLength(run, items)
  {
    if run != [] {
      GatherLength(run[1..], items);
    }
  }

  /** Gathering one more page appends that page's items. */
  lemma {:induction false} GatherSnoc<P, T>(run: seq<P>, p: P, items: P -> seq<T>)
    ensures Gather(run + [p], items) == Gather(run, items) + items(p)
  {
    if run == [] {
      assert [p][1..] == [];
    } else {
      assert (run + [p])[0] == run[0];
      assert (run + [p])[1..] == run[1..] + [p];
      GatherSnoc(run[1..], p, items);
    }
  }

  /** Where a walk that has collected `j` pages goes next: after a page that names no
      further cursor it is over; after one that does, it collects the next answer when
      there is one. */
  lemma RunStep<P>(pages: seq<Option<P>>, continues: P -> bool, j: nat)
    requires 1 <= j <= |Run(pages, continues)|
    ensures var run := Run(pages, continues);
      !continues(run[j - 1]) ==> j == |run|
    ensures var run := Run(pages, continues);
      continues(run[j - 1]) ==> (j < |run| <==> j < |pages| && pages[j].Some?)
    ensures var run := Run(pages, continues);
      j < |run| ==> pages[j] == Some(run[j])
  {
  }

  /** Gathering one page more of a walk appends that page's items. */
  lemma GatherPrefix<P, T>(run: seq<P>, j: nat, items: P -> seq<T>)
    requires j < |run|
    ensures Gather(run[..j + 1], items) == Gather(run[..j], items) + items(run[j])
  {
    assert run[..j + 1] == run[..j] + [run[j]];
    GatherSnoc(run[..j], run[j], items);
  }
}
