/**
 * The alert in front of the contact form (`showAlert` in main.js and
 * `showFormAlert` in script.js, which differ only in markup): each call
 * removes the first `.form-alert` of the page, inserts a new one directly
 * before the form, and, for a success alert, starts a 5000 ms timer that
 * removes that very element.
 */
module FormAlert {
  import opened Wrappers

  datatype Kind = Success | Error

  /** The text and severity of one alert element. */
  datatype Alert = Alert(message: string, kind: Kind)

  /**
   * The alerts area: `shown` lists the ids of the `.form-alert` elements in the
   * page, in document order; `timers` the pending removal timers in the order
   * they fire (all have the same delay), each holding the id of the element it
   * removes; `beforeForm` the alert that is the form's previous sibling, if
   * any; `nextId` the id the next alert element gets; `created` every alert
   * element made so far.
   */
  datatype Region = Region(shown: seq<nat>, timers: seq<nat>, beforeForm: Option<nat>, nextId: nat, created: map<nat, Alert>)

  /**
   * What every reachable region satisfies: at most one alert on the page, it
   * sits directly before the form, and only success alerts have timers.
   */
  predicate WellFormed(r: Region) {
    |r.shown| <= 1
    && (r.beforeForm.Some? <==> r.shown != [])
    && (r.beforeForm.Some? ==> r.beforeForm.value == r.shown[0])
    && (forall id :: id in r.created ==> id < r.nextId)
    && (forall id :: id in r.shown ==> id in r.created)
    && (forall id :: id in r.timers ==> id in r.created && r.created[id].kind == Success)
  }

  const Empty: Region := Region([], [], None, 0, map[])

  /** `element.remove()`: the element leaves the page; removing a detached element changes nothing. */
  function Remove(shown: seq<nat>, id: nat): (r: seq<nat>)
    ensures forall x :: x in r <==> x in shown && x != id
    ensures |r| <= |shown|
  {
    if shown == [] then []
    else (if shown[0] == id then [] else [shown[0]]) + Remove(shown[1..], id)
  }

  /** One `showAlert(message, type)` call. */
  function Show(r: Region, a: Alert): Region {
    var kept := if r.shown == [] then [] else r.shown[1..];
    Region(kept + [r.nextId],
           if a.kind == Success then r.timers + [r.nextId] else r.timers,
           Some(r.nextId),
           r.nextId + 1,
           r.created[r.nextId := a])
  }

  /** The oldest pending timer fires and removes its own element. */
  function Fire(r: Region): Region
    requires r.timers != []
  {
    r.(shown := Remove(r.shown, r.timers[0]), timers := r.timers[1..],
       beforeForm := if r.beforeForm == Some(r.timers[0]) then None else r.beforeForm)
  }

  /** `n` timers fire in turn. */
  function FireMany(r: Region, n: nat): Region
    requires n <= |r.timers|
    decreases n
  {
    if n == 0 then r else FireMany(Fire(r), n - 1)
  }

  /**
   * After a call, the page holds exactly one alert: the new element, directly
   * before the form, carrying the given alert.
   */
  lemma ShowLeavesOnlyNew(r: Region, a: Alert)
    requires WellFormed(r)
    ensures WellFormed(Show(r, a))
    ensures Show(r, a).shown == [r.nextId] && r.nextId !in r.created
    ensures Show(r, a).beforeForm == Some(r.nextId)
    ensures Show(r, a).created[r.nextId] == a
  {
  }

  /** The new element gets a removal timer exactly when it is a success alert. */
  lemma TimerOnlyForSuccess(r: Region, a: Alert)
    requires WellFormed(r)
    ensures r.nextId in Show(r, a).timers <==> a.kind == Success
    ensures forall id :: id in r.timers <==> id in Show(r, a).timers && id != r.nextId
  {
  }

  /** A firing timer removes its own element and nothing else, and keeps the region well formed. */
  lemma FireRemovesOwnOnly(r: Region)
    requires WellFormed(r) && r.timers != []
    ensures WellFormed(Fire(r))
    ensures forall id :: id in Fire(r).shown <==> id in r.shown && id != r.timers[0]
  {
  }

  /** Timers that belong to other elements leave a shown alert in place. */
  lemma {:induction false} FireSparesOthers(r: Region, n: nat, id: nat)
    requires WellFormed(r) && n <= |r.timers|
    requires id in r.shown && forall k :: 0 <= k < n ==> r.timers[k] != id
    ensures WellFormed(FireMany(r, n)) && id in FireMany(r, n).shown
    decreases n
  {
    if n > 0 {
      FireRemovesOwnOnly(r);
      assert forall k :: 0 <= k < n - 1 ==> Fire(r).timers[k] == r.timers[k + 1];
      FireSparesOthers(Fire(r), n - 1, id);
    }
  }

  /**
   * The timer of an earlier success alert leaves a newer alert in place:
   * after the timers pending at the success alert's creation and its own have
   * fired, the alert shown after it is still there.
   */
  lemma StaleTimerKeepsNewer(r: Region, a: Alert, b: Alert)
    requires WellFormed(r) && a.kind == Success
    ensures |r.timers| + 1 <= |Show(Show(r, a), b).timers|
    ensures r.nextId + 1 in FireMany(Show(Show(r, a), b), |r.timers| + 1).shown
  {
    var s1 := Show(r, a);
    var s2 := Show(s1, b);
    ShowLeavesOnlyNew(r, a);
    ShowLeavesOnlyNew(s1, b);
    assert s1.timers == r.timers + [r.nextId];
    assert s2.timers[..|r.timers| + 1] == s1.timers;
    forall k | 0 <= k < |r.timers| + 1
      ensures s2.timers[k] != r.nextId + 1
    {
      assert s2.timers[k] == s1.timers[k];
      if k < |r.timers| {
        assert r.timers[k] in r.timers;
      }
    }
    FireSparesOthers(s2, |r.timers| + 1, r.nextId + 1);
  }

  /** Timers never take away an error alert. */
  lemma {:induction false} ErrorAlertPersists(r: Region, n: nat, id: nat)
    requires WellFormed(r) && n <= |r.timers|
    requires id in r.shown && r.created[id].kind == Error
    ensures WellFormed(FireMany(r, n)) && id in FireMany(r, n).shown
    decreases n
  {
    if n > 0 {
      FireRemovesOwnOnly(r);
      ErrorAlertPersists(Fire(r), n - 1, id);
    }
  }

  /** A success alert is gone once the timers pending at its creation and its own have fired. */
  lemma {:induction false} SuccessAlertRemoved(r: Region, a: Alert)
    requires WellFormed(r) && a.kind == Success
    ensures |Show(r, a).timers| == |r.timers| + 1
    ensures r.nextId !in FireMany(Show(r, a), |r.timers| + 1).shown
  {
    var s := Show(r, a);
    ShowLeavesOnlyNew(r, a);
    FireOthersKeeps(s, |r.timers|, r.nextId);
  }

  lemma {:induction false} FireOthersKeeps(r: Region, n: nat, id: nat)
    requires WellFormed(r) && n < |r.timers| && r.timers[n] == id
    requires forall k :: 0 <= k < n ==> r.timers[k] != id
    ensures WellFormed(FireMany(r, n))
    ensures FireMany(r, n).timers == r.timers[n..]
    ensures id !in FireMany(r, n + 1).shown
    decreases n
  {
    if n == 0 {
      FireRemovesOwnOnly(r);
    } else {
      FireRemovesOwnOnly(r);
      FireOthersKeeps(Fire(r), n - 1, id);
    }
  }

  /**
   * The alerts area of one page, updated in place. Both scripts keep one such
   * area in front of their contact form.
   */
  class AlertSlot {
    var shown: seq<nat>
    var timers: seq<nat>
    var beforeForm: Option<nat>
    var nextId: nat
    var created: map<nat, Alert>

    function State(): Region
      reads this
    {
      Region(shown, timers, beforeForm, nextId, created)
    }

    ghost predicate Valid()
      reads this
    {
      WellFormed(State())
    }

    /** The page as loaded: no alert, no timer. */
    constructor ()
      ensures Valid() && State() == Empty
    {
      shown, timers, beforeForm, nextId, created := [], [], None, 0, map[];
    }

    /** `showAlert(message, type)` / `showFormAlert(message, type)`. */
    method ShowAlert(a: Alert)
      requires Valid()
      modifies this
      ensures Valid() && State() == Show(old(State()), a)
      ensures shown == [old(nextId)] && beforeForm == Some(old(nextId)) && created[old(nextId)] == a
    {
      // `document.querySelector('.form-alert')` finds the first one; it is removed
      if shown != [] {
        shown := shown[1..];
      }
      var id := nextId;
      nextId := nextId + 1;
      created := created[id := a];
      // `form.insertAdjacentElement('beforebegin', alert)`
      shown := shown + [id];
      beforeForm := Some(id);
      if a.kind == Success {
        // `setTimeout(() => alert.remove(), 5000)`
        timers := timers + [id];
      }
      ShowLeavesOnlyNew(old(State()), a);
    }

    /** The oldest pending removal timer fires. */
    method FireTimer()
      requires Valid() && timers != []
      modifies this
      ensures Valid() && State() == Fire(old(State()))
    {
      FireRemovesOwnOnly(State());
      if beforeForm == Some(timers[0]) {
        beforeForm := None;
      }
      shown := Remove(shown, timers[0]);
      timers := timers[1..];
    }
  }
}
