/**
 * The UI factory service: one object holding the wait-screen state and the
 * error-popup state, with the four operations it exposes and the effect of
 * the popup's close button.
 */
module Factories {

  import opened Wrappers
  import opened WaitScreen
  import opened ErrorPopup

  /** Everything the service keeps between calls. */
  datatype UIState = UIState(wait: WaitState, popup: PopupState)

  predicate Consistent(s: UIState)
  {
    WaitScreen.Invariant(s.wait) && ErrorPopup.Invariant(s.popup)
  }

  /** The caller tag `printErrors` releases the wait screen with. */
  const PrintErrorsCaller := "printErrors"

  /** `printErrors(batch)`: render the batch, then force the wait screen closed. */
  function Report(s: UIState, batch: seq<ErrorEntry>): UIState
  {
    UIState(Hide(s.wait, Some(PrintErrorsCaller), true), Render(s.popup, batch))
  }

  /**
   * Every report, the empty batch included, leaves the popup existing and
   * visible and the wait screen hidden with nothing counted; the overlay is
   * neither created nor destroyed.
   */
  lemma ReportEffect(s: UIState, batch: seq<ErrorEntry>)
    ensures Report(s, batch).popup.present && Report(s, batch).popup.visible
    ensures Report(s, batch).wait.count == 0 && !Report(s, batch).wait.shown
    ensures Report(s, batch).wait.present == s.wait.present
    ensures Report(s, batch).wait.callers == Without(s.wait.callers, PrintErrorsCaller)
    ensures !s.popup.visible ==> Report(s, batch).popup.blocks == batch
    ensures s.popup.visible && s.popup.present ==> Report(s, batch).popup.blocks[..|s.popup.blocks|] == s.popup.blocks
    ensures Consistent(s) ==> Consistent(Report(s, batch))
  {
    if !s.popup.visible {
      RenderHidden(s.popup, batch);
    } else if s.popup.present {
      RenderVisible(s.popup, batch);
    }
  }

  /**
   * Reporting a code twice while the popup is open shows one block for it;
   * after the user dismisses the popup, reporting it again shows it again.
   */
  lemma ReportSameCodeTwice(s: UIState, e: ErrorEntry, e': ErrorEntry)
    requires e'.code == e.code
    ensures Report(Report(s, [e]), [e']).popup.blocks == Report(s, [e]).popup.blocks
    ensures Report(UIState(Report(s, [e]).wait, Dismiss(Report(s, [e]).popup)), [e']).popup.blocks == [e']
  {
    SameCodeWhileVisible(s.popup, e, e');
    RenderAfterDismiss(Report(s, [e]).popup, [e']);
  }

  /** The service object; its fields are the state the source keeps in closures and in the document. */
  class UIFactory {
    var waitScreenCount: int
    var waitScreenCaller: seq<string>
    var overlayPresent: bool
    var overlayShown: bool
    var popupPresent: bool
    var popupVisible: bool
    var popupBlocks: seq<ErrorEntry>

    ghost function Wait(): WaitState
      reads this
    {
      WaitState(waitScreenCount, waitScreenCaller, overlayPresent, overlayShown)
    }

    ghost function Popup(): PopupState
      reads this
    {
      PopupState(popupPresent, popupVisible, popupBlocks)
    }

    ghost function State(): UIState
      reads this
    {
      UIState(Wait(), Popup())
    }

    ghost predicate Valid()
      reads this
    {
      Consistent(State())
    }

    constructor ()
      ensures Valid()
      ensures Wait() == WaitScreen.Initial && Popup() == ErrorPopup.Initial
    {
      waitScreenCount, waitScreenCaller := 0, [];
      overlayPresent, overlayShown := false, false;
      popupPresent, popupVisible, popupBlocks := false, false, [];
    }

    /** Acquire one wait-screen reference; returns the new count. */
    method ShowWaitScreen(caller: Option<string>) returns (count: int)
      requires Valid()
      modifies this
      ensures Valid()
      ensures Wait() == Show(old(Wait()), caller)
      ensures Popup() == old(Popup())
      ensures count == waitScreenCount
    {
      // a falsy caller only gets a diagnostic warning
      if Truthy(caller) {
        waitScreenCaller := waitScreenCaller + [caller.value];
      }
      if !overlayPresent {
        // a new overlay is created with the `in` class
        overlayPresent, overlayShown := true, true;
      } else {
        overlayShown := true;
      }
      waitScreenCount := waitScreenCount + 1;
      count := waitScreenCount;
    }

    /** Release one wait-screen reference, or all of them when `forceClose`; returns the new count. */
    method HideWaitScreen(caller: Option<string>, forceClose: bool) returns (count: int)
      requires Valid()
      modifies this
      ensures Valid()
      ensures Wait() == Hide(old(Wait()), caller, forceClose)
      ensures Popup() == old(Popup())
      ensures count == waitScreenCount
    {
      waitScreenCount := waitScreenCount - 1;

      if Truthy(caller) {
        // scan from the end, splicing out every element equal to the caller
        ghost var before := waitScreenCaller;
        var i := |waitScreenCaller| - 1;
        while i >= 0
          invariant -1 <= i < |before|
          invariant waitScreenCaller == before[..i + 1] + Without(before[i + 1..], caller.value)
          invariant waitScreenCount == old(waitScreenCount) - 1
          invariant overlayPresent == old(overlayPresent) && overlayShown == old(overlayShown)
          invariant Popup() == old(Popup())
          decreases i
        {
          assert waitScreenCaller[i] == before[i];
          assert before[i..][1..] == before[i + 1..];
          if waitScreenCaller[i] == caller.value {
            waitScreenCaller := waitScreenCaller[..i] + waitScreenCaller[i + 1..];
            assert waitScreenCaller == before[..i] + Without(before[i..], caller.value);
          } else {
            assert before[..i + 1] == before[..i] + [before[i]];
          }
          i := i - 1;
        }
        assert before[0..] == before;
      }

      if waitScreenCount <= 0 || forceClose {
        waitScreenCount := 0;
        overlayShown := false;
      }
      count := waitScreenCount;
    }

    /** Show a batch of errors, then force the wait screen closed. */
    method PrintErrors(errorMessages: seq<ErrorEntry>)
      requires Valid()
      modifies this
      ensures Valid()
      ensures State() == Report(old(State()), errorMessages)
    {
      if !popupPresent {
        // a new popup is created hidden and empty
        popupPresent, popupVisible, popupBlocks := true, false, [];
      }
      ghost var p := Popup();
      assert p == Created(old(Popup()));

      var errorHtml: seq<ErrorEntry> := [];
      var k := 0;
      while k < |errorMessages|
        invariant 0 <= k <= |errorMessages|
        invariant errorHtml == Fresh(p, errorMessages[..k])
        invariant Popup() == p && Wait() == old(Wait())
      {
        var error := errorMessages[k];
        if !popupVisible || error.code !in Codes(popupBlocks) {
          errorHtml := errorHtml + [error];
        }
        assert errorMessages[..k + 1][..k] == errorMessages[..k];
        k := k + 1;
      }
      assert errorMessages[..k] == errorMessages;

      if popupVisible {
        popupBlocks := popupBlocks + errorHtml;
      } else {
        popupBlocks := errorHtml;
        popupVisible := true;
      }
      var _ := HideWaitScreen(Some(PrintErrorsCaller), true);
    }

    /** Show a single error; the same as reporting a batch of one. */
    method ThrowError(code: int, msg: string)
      requires Valid()
      modifies this
      ensures Valid()
      ensures State() == Report(old(State()), [ErrorEntry(code, msg)])
    {
      PrintErrors([ErrorEntry(code, msg)]);
    }

    /** The popup's close button: hide it, keep it and its blocks. */
    method Dismiss()
      requires Valid() && popupPresent
      modifies this
      ensures Valid()
      ensures Popup() == ErrorPopup.Dismiss(old(Popup()))
      ensures popupPresent && !popupVisible && popupBlocks == old(popupBlocks)
      ensures Wait() == old(Wait())
    {
      popupVisible := false;
    }
  }

  // -----------------------------------------------------------------------
  // Client scenarios on a fresh service

  /** Two overlapping loads: the overlay stays up until the second one finishes. */
  method TwoLoadsScenario() returns (counts: seq<int>, shown: seq<bool>)
    ensures counts == [1, 2, 1, 0]
    ensures shown == [true, true, true, false]
  {
    var ui := new UIFactory();
    var c1 := ui.ShowWaitScreen(Some("load1"));
    var s1 := ui.overlayShown;
    var c2 := ui.ShowWaitScreen(Some("load2"));
    var s2 := ui.overlayShown;
    var c3 := ui.HideWaitScreen(Some("load1"), false);
    var s3 := ui.overlayShown;
    var c4 := ui.HideWaitScreen(Some("load2"), false);
    var s4 := ui.overlayShown;
    counts, shown := [c1, c2, c3, c4], [s1, s2, s3, s4];
  }

  /** Releasing "A" after acquiring "A", "B", "A" takes out both entries of "A". */
  method CallerListScenario() returns (callers: seq<string>, count: int)
    ensures callers == ["B"]
    ensures count == 2
  {
    var ui := new UIFactory();
    var a1 := ui.ShowWaitScreen(Some("A"));
    var b := ui.ShowWaitScreen(Some("B"));
    var a2 := ui.ShowWaitScreen(Some("A"));
    count := ui.HideWaitScreen(Some("A"), false);
    RemoveEveryOccurrence();
    callers := ui.waitScreenCaller;
  }

  /**
   * An error during a load: the popup shows the one block and the wait screen
   * is forced closed; reporting the same code again while the popup is open
   * adds nothing, and after a dismiss it is shown again.
   */
  method NotFoundScenario() returns (first: seq<ErrorEntry>, again: seq<ErrorEntry>, reopened: seq<ErrorEntry>, waiting: bool, count: int)
    ensures first == [ErrorEntry(404, "Not found")]
    ensures again == first
    ensures reopened == [ErrorEntry(404, "Gone")]
    ensures !waiting && count == 0
  {
    var ui := new UIFactory();
    var n1 := ui.ShowWaitScreen(Some("load"));
    var n2 := ui.ShowWaitScreen(Some("load"));
    ui.ThrowError(404, "Not found");
    RenderHidden(ErrorPopup.Initial, [ErrorEntry(404, "Not found")]);
    first, waiting, count := ui.popupBlocks, ui.overlayShown, ui.waitScreenCount;
    ghost var open := ui.Popup();
    ui.ThrowError(404, "Not found");
    RenderAgain(ErrorPopup.Initial, [ErrorEntry(404, "Not found")]);
    again := ui.popupBlocks;
    ui.Dismiss();
    ui.ThrowError(404, "Gone");
    RenderAfterDismiss(open, [ErrorEntry(404, "Gone")]);
    reopened := ui.popupBlocks;
  }
}
