/** The bundle's class `S`, a single shared instance of which hands an
    AbortSignal to every navigator.credentials call. Asking for a new signal
    first aborts the controller of the previous one, so at most one WebAuthn
    call is live at a time. AbortController and AbortSignal are the
    browser's, reduced to what S uses. */
module AbortService {
  import opened Outcomes
  import opened CeremonyErrors

  /** The reason S gives when it cancels the previous call: an Error whose
      name is set to "AbortError". */
  const CancelReason := DomException("AbortError", "Cancelling existing WebAuthn API call for new one")

  class AbortSignal {
    var aborted: bool
    var reason: Option<DomException>

    constructor()
      ensures !aborted && reason == None
    {
      aborted := false;
      reason := None;
    }
  }

  class AbortController {
    const signal: AbortSignal

    constructor()
      ensures fresh(signal) && !signal.aborted && signal.reason == None
    {
      signal := new AbortSignal();
    }

    /** AbortController.abort(reason): the first abort marks the signal and
        records the reason; aborting again changes nothing. */
    method Abort(reason: DomException)
      modifies signal
      ensures signal.aborted
      ensures signal.reason == if old(signal.aborted) then old(signal.reason) else Some(reason)
    {
      if !signal.aborted {
        signal.aborted := true;
        signal.reason := Some(reason);
      }
    }
  }

  class AbortServiceState {
    var controller: AbortController?
    /** Every signal handed out so far, oldest first. */
    ghost var issued: seq<AbortSignal>

    /** Only the newest signal handed out is still live; it belongs to the
        stored controller, and every earlier one has been aborted. */
    ghost predicate Valid()
      reads this, issued
    {
      (controller == null <==> issued == []) &&
      (controller != null ==> issued[|issued| - 1] == controller.signal && !controller.signal.aborted) &&
      forall i :: 0 <= i < |issued| - 1 ==> issued[i].aborted
    }

    constructor()
      ensures Valid() && controller == null && issued == []
    {
      controller := null;
      issued := [];
    }

    /** createNewAbortSignal: abort the stored controller, if any, with the
        cancellation reason, then store a fresh controller and return its
        signal. */
    method CreateNewAbortSignal() returns (signal: AbortSignal)
      requires Valid()
      modifies this, if controller != null then {controller.signal} else {}
      ensures Valid()
      ensures fresh(signal) && !signal.aborted && signal.reason == None
      ensures controller != null && controller.signal == signal
      ensures issued == old(issued) + [signal]
      ensures old(controller) != null ==>
                old(controller).signal.aborted && old(controller).signal.reason == Some(CancelReason)
    {
      if controller != null {
        controller.Abort(CancelReason);
      }
      var n := new AbortController();
      controller := n;
      issued := issued + [n.signal];
      signal := n.signal;
    }

    /** With the invariant, a signal that was handed out is live exactly
        when it is the newest one. */
    lemma OnlyNewestIsLive(i: nat)
      requires Valid() && i < |issued|
      ensures !issued[i].aborted <==> i == |issued| - 1
    {
    }
  }
}
