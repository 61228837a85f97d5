/**
 * The toast queue of src/stores/toastStore.ts: an ordered list of
 * notifications with append, remove-first-by-id and clear. The id generator
 * is a parameter; each `setTimeout` that `show` schedules is recorded in a
 * ghost multiset of pending removals, and `TimerFires` is its callback.
 */
module ToastStore {
  import Wrappers
  import opened Lookup

  datatype ToastType = Success | Error | Info | Warning

  datatype Toast = Toast(id: string, message: string, kind: ToastType, duration: int)

  /** The duration `show` uses when it is given none. */
  const DefaultDuration: int := 3000

  /** The duration `error` passes when it is given none. */
  const ErrorDuration: int := 5000

  function ToastId(t: Toast): string {
    t.id
  }

  /** `findIndex` by id: the index of the first toast with that id (see `FindBy`). */
  function FindToast(ts: seq<Toast>, id: string): Wrappers.Option<nat> {
    FindBy(ts, ToastId, id)
  }

  /** Removing a toast just shown under an id no other toast has gives back the queue as it was. */
  lemma ShowThenRemove(ts: seq<Toast>, t: Toast)
    requires FindToast(ts, t.id).None?
    ensures FindToast(ts + [t], t.id) == Wrappers.Some(|ts|)
    ensures RemoveAt(ts + [t], |ts|) == ts
  {
    assert (ts + [t])[|ts|].id == t.id;
  }

  /** Removal by id takes out the first toast with it and keeps every other toast, in order. */
  lemma RemoveKeepsOthers(ts: seq<Toast>, id: string, k: nat)
    requires FindToast(ts, id) == Wrappers.Some(k)
    ensures multiset(RemoveAt(ts, k)) + multiset{ts[k]} == multiset(ts)
    ensures forall i :: 0 <= i < k ==> RemoveAt(ts, k)[i].id != id
  {
    RemoveAtMultiset(ts, k);
  }

  class ToastStore {
    var toasts: seq<Toast>
    /** The ids whose auto-removal timer has been scheduled and has not fired yet. */
    ghost var pending: multiset<string>

    constructor()
      ensures toasts == [] && pending == multiset{}
    {
      toasts := [];
      pending := multiset{};
    }

    /**
     * `show`: appends the toast, type "info" and duration 3000 unless given,
     * schedules its removal when the duration is positive, and returns its id.
     */
    method Show(message: string, kind: Wrappers.Option<ToastType>, duration: Wrappers.Option<int>, id: string)
      returns (r: string)
      modifies this
      ensures r == id
      ensures toasts == old(toasts) + [Toast(id, message, kind.GetOr(ToastType.Info), duration.GetOr(DefaultDuration))]
      ensures pending == if duration.GetOr(DefaultDuration) > 0 then old(pending) + multiset{id} else old(pending)
    {
      var d := duration.GetOr(DefaultDuration);
      var toast := Toast(id, message, kind.GetOr(ToastType.Info), d);
      toasts := toasts + [toast];
      if d > 0 {
        pending := pending + multiset{id};
      }
      r := id;
    }

    /** `success`: a success toast, 3000 unless a duration is given. */
    method Success(message: string, duration: Wrappers.Option<int>, id: string) returns (r: string)
      modifies this
      ensures r == id
      ensures toasts == old(toasts) + [Toast(id, message, ToastType.Success, duration.GetOr(DefaultDuration))]
      ensures pending == if duration.GetOr(DefaultDuration) > 0 then old(pending) + multiset{id} else old(pending)
    {
      r := Show(message, Wrappers.Some(ToastType.Success), duration, id);
    }

    /** `error`: an error toast, 5000 unless a duration is given. */
    method Error(message: string, duration: Wrappers.Option<int>, id: string) returns (r: string)
      modifies this
      ensures r == id
      ensures toasts == old(toasts) + [Toast(id, message, ToastType.Error, duration.GetOr(ErrorDuration))]
      ensures pending == if duration.GetOr(ErrorDuration) > 0 then old(pending) + multiset{id} else old(pending)
    {
      r := Show(message, Wrappers.Some(ToastType.Error), Wrappers.Some(duration.GetOr(ErrorDuration)), id);
    }

    /** `warning`: a warning toast, 3000 unless a duration is given. */
    method Warning(message: string, duration: Wrappers.Option<int>, id: string) returns (r: string)
      modifies this
      ensures r == id
      ensures toasts == old(toasts) + [Toast(id, message, ToastType.Warning, duration.GetOr(DefaultDuration))]
      ensures pending == if duration.GetOr(DefaultDuration) > 0 then old(pending) + multiset{id} else old(pending)
    {
      r := Show(message, Wrappers.Some(ToastType.Warning), duration, id);
    }

    /** `info`: an info toast, 3000 unless a duration is given. */
    method Info(message: string, duration: Wrappers.Option<int>, id: string) returns (r: string)
      modifies this
      ensures r == id
      ensures toasts == old(toasts) + [Toast(id, message, ToastType.Info, duration.GetOr(DefaultDuration))]
      ensures pending == if duration.GetOr(DefaultDuration) > 0 then old(pending) + multiset{id} else old(pending)
    {
      r := Show(message, Wrappers.Some(ToastType.Info), duration, id);
    }

    /** `remove`: takes out the first toast with the id; with none it changes nothing. Timers are not cancelled. */
    method Remove(id: string)
      modifies this`toasts
      ensures FindToast(old(toasts), id).None? ==> toasts == old(toasts)
      ensures FindToast(old(toasts), id).Some? ==> toasts == RemoveAt(old(toasts), FindToast(old(toasts), id).value)
    {
      var index := FindToast(toasts, id);
      if index.Some? {
        toasts := RemoveAt(toasts, index.value);
      }
    }

    /** `clear`: the queue is empty; scheduled timers still fire later. */
    method Clear()
      modifies this`toasts
      ensures toasts == []
    {
      toasts := [];
    }

    /** The callback `show` schedules: one pending timer is used up and `remove` runs, harmlessly if the toast is gone. */
    method TimerFires(id: string)
      requires id in pending
      modifies this
      ensures pending == old(pending) - multiset{id}
      ensures FindToast(old(toasts), id).None? ==> toasts == old(toasts)
      ensures FindToast(old(toasts), id).Some? ==> toasts == RemoveAt(old(toasts), FindToast(old(toasts), id).value)
    {
      pending := pending - multiset{id};
      Remove(id);
    }
  }
}
