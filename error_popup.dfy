/**
 * The error popup `#CheckoutErrorPane` of the UI factory, as values.
 *
 * The markup is abstracted to whether the popup exists, whether it is
 * visible, and the error blocks it shows (each tagged with its code).
 * `Render` is what `printErrors` does to the popup; `Dismiss` is the effect of
 * the popup's close button.
 */
module ErrorPopup {

  /** One reported error: a code and the message shown for it. */
  datatype ErrorEntry = ErrorEntry(code: int, message: string)

  /**
   * present -- the popup element exists in the document
   * visible -- the popup is displayed
   * blocks  -- the error blocks inside it, in document order
   */
  datatype PopupState = PopupState(present: bool, visible: bool, blocks: seq<ErrorEntry>)

  /** The state before any error: no popup. */
  const Initial := PopupState(false, false, [])

  /** A popup that does not exist is neither visible nor holds anything. */
  predicate Invariant(p: PopupState)
  {
    !p.present ==> !p.visible && p.blocks == []
  }

  /** The codes the popup shows a block for. */
  function Codes(blocks: seq<ErrorEntry>): set<int>
  {
    set b | b in blocks :: b.code
  }

  /** Whether an entry gets a block: the popup is hidden, or no block shows its code yet. */
  predicate Accepts(p: PopupState, e: ErrorEntry)
  {
    !p.visible || e.code !in Codes(p.blocks)
  }

  /** The blocks one pass over a batch collects, in batch order; `p` is the popup before the pass. */
  function Fresh(p: PopupState, batch: seq<ErrorEntry>): seq<ErrorEntry>
    decreases |batch|
  {
    if batch == [] then []
    else
      var last := batch[|batch| - 1];
      Fresh(p, batch[..|batch| - 1]) + (if Accepts(p, last) then [last] else [])
  }

  /** The popup once it is sure to exist: a new one is empty and hidden. */
  function Created(p: PopupState): PopupState
  {
    if p.present then p else PopupState(true, false, [])
  }

  /** `printErrors(batch)` on the popup: append to a visible popup, otherwise replace and show. */
  function Render(p: PopupState, batch: seq<ErrorEntry>): (r: PopupState)
    ensures r.present && r.visible
    ensures Invariant(r)
  {
    var q := Created(p);
    var added := Fresh(q, batch);
    if q.visible then PopupState(true, true, q.blocks + added) else PopupState(true, true, added)
  }

  /** The close button: hides the popup and keeps it, with its blocks, for reuse. */
  function Dismiss(p: PopupState): PopupState
  {
    p.(visible := false)
  }

  // ---------------------------------------------------------------------
  // Collecting the blocks of a batch

  lemma {:induction false} FreshConcat(p: PopupState, a: seq<ErrorEntry>, b: seq<ErrorEntry>)
    ensures Fresh(p, a + b) == Fresh(p, a) + Fresh(p, b)
    decreases |b|
  {
    if b == [] {
      assert a + b == a;
    } else {
      var front := b[..|b| - 1];
      assert (a + b)[..|a + b| - 1] == a + front;
      FreshConcat(p, a, front);
    }
  }

  /** A hidden popup takes the whole batch, in order, duplicates included. */
  lemma {:induction false} FreshWhenHidden(p: PopupState, batch: seq<ErrorEntry>)
    requires !p.visible
    ensures Fresh(p, batch) == batch
    decreases |batch|
  {
    if batch != [] {
      FreshWhenHidden(p, batch[..|batch| - 1]);
      assert batch[..|batch| - 1] + [batch[|batch| - 1]] == batch;
    }
  }

  /** Exactly the accepted entries are collected, each as often as the batch holds it. */
  lemma {:induction false} FreshFilters(p: PopupState, batch: seq<ErrorEntry>)
    ensures forall e :: e in Fresh(p, batch) ==> e in batch && Accepts(p, e)
    ensures forall e :: multiset(Fresh(p, batch))[e] == if Accepts(p, e) then multiset(batch)[e] else 0
    decreases |batch|
  {
    if batch != [] {
      var front := batch[..|batch| - 1];
      FreshFilters(p, front);
      assert batch == front + [batch[|batch| - 1]];
    }
  }

  // ---------------------------------------------------------------------
  // What printErrors does to the popup

  /** On a hidden or missing popup the blocks become the batch, in order, without deduplication. */
  lemma RenderHidden(p: PopupState, batch: seq<ErrorEntry>)
    requires !p.visible
    ensures Render(p, batch).blocks == batch
  {
    FreshWhenHidden(Created(p), batch);
  }

  /** On a visible popup the blocks collected from the batch follow the old ones, in batch order. */
  lemma RenderVisibleAppends(p: PopupState, batch: seq<ErrorEntry>)
    requires Invariant(p) && p.visible
    ensures Render(p, batch).blocks == p.blocks + Fresh(p, batch)
  {
  }

  /**
   * On a visible popup the old blocks stay in front and the blocks collected
   * from the batch follow, in batch order (`FreshConcat`); what is appended is
   * each entry of the batch whose code the popup did not show before the call,
   * as often as the batch holds it (two new entries with one code are both
   * kept), and nothing whose code was already shown.
   */
  lemma RenderVisible(p: PopupState, batch: seq<ErrorEntry>)
    requires Invariant(p) && p.visible
    ensures |p.blocks| <= |Render(p, batch).blocks|
    ensures Render(p, batch).blocks[..|p.blocks|] == p.blocks
    ensures forall e :: e in Render(p, batch).blocks[|p.blocks|..] ==> e in batch && e.code !in Codes(p.blocks)
    ensures forall e :: multiset(Render(p, batch).blocks[|p.blocks|..])[e] ==
                        if e.code in Codes(p.blocks) then 0 else multiset(batch)[e]
  {
    var r := Render(p, batch);
    RenderVisibleAppends(p, batch);
    assert r.blocks[|p.blocks|..] == Fresh(p, batch);
    FreshFilters(p, batch);
  }

  /** After a render, every code of the batch is shown. */
  lemma RenderShowsBatch(p: PopupState, batch: seq<ErrorEntry>)
    ensures forall e :: e in batch ==> e.code in Codes(Render(p, batch).blocks)
  {
    var q := Created(p);
    var r := Render(p, batch);
    if q.visible {
      FreshFilters(q, batch);
      forall e | e in batch
        ensures e.code in Codes(r.blocks)
      {
        if e.code in Codes(q.blocks) {
          var b :| b in q.blocks && b.code == e.code;
          assert b in r.blocks;
        } else {
          assert multiset(Fresh(q, batch))[e] == multiset(batch)[e] > 0;
          assert e in r.blocks;
        }
      }
    } else {
      FreshWhenHidden(q, batch);
      forall e | e in batch
        ensures e.code in Codes(r.blocks)
      {
        assert e in r.blocks;
      }
    }
  }

  lemma {:induction false} FreshNoneAccepted(p: PopupState, batch: seq<ErrorEntry>)
    requires forall e :: e in batch ==> !Accepts(p, e)
    ensures Fresh(p, batch) == []
    decreases |batch|
  {
    if batch != [] {
      var front := batch[..|batch| - 1];
      assert forall e :: e in front ==> e in batch;
      FreshNoneAccepted(p, front);
    }
  }

  /** Reporting the same batch again while the popup is still open changes nothing. */
  lemma RenderAgain(p: PopupState, batch: seq<ErrorEntry>)
    ensures Render(Render(p, batch), batch) == Render(p, batch)
  {
    var r := Render(p, batch);
    RenderShowsBatch(p, batch);
    FreshNoneAccepted(r, batch);
  }

  /**
   * Dedup is by code and only while the popup is open: a second entry with an
   * already shown code adds no block, whatever its message.
   */
  lemma SameCodeWhileVisible(p: PopupState, e: ErrorEntry, e': ErrorEntry)
    requires e'.code == e.code
    ensures Render(Render(p, [e]), [e']) == Render(p, [e])
  {
    var r := Render(p, [e]);
    RenderShowsBatch(p, [e]);
    assert e.code in Codes(r.blocks);
    FreshNoneAccepted(r, [e']);
  }

  /** Dismissing keeps the popup and its blocks; the next report replaces them with its batch. */
  lemma RenderAfterDismiss(p: PopupState, batch: seq<ErrorEntry>)
    ensures Dismiss(p).present == p.present && Dismiss(p).blocks == p.blocks
    ensures Invariant(p) ==> Invariant(Dismiss(p))
    ensures Render(Dismiss(p), batch).blocks == batch
  {
    RenderHidden(Dismiss(p), batch);
  }
}
