/**
 * The notification context of contexts/NotificationContext.tsx: a list of
 * toasts and a single-slot confirmation dialog.
 *
 * The dialog's callbacks are values of a type parameter `A`; confirming or
 * cancelling returns the callback the context would run. A toast's random id
 * is a parameter, and its expiry is a separate step.
 */
module Notification {
  import opened Values

  datatype ToastType = Success | Error | Info

  datatype Toast = Toast(id: string, toastType: ToastType, message: string)

  datatype Variant = Danger | Primary

  datatype ConfirmOptions<A> = ConfirmOptions(
    title: string,
    message: string,
    confirmLabel: Option<string>,
    cancelLabel: Option<string>,
    onConfirm: A,
    onCancel: Option<A>,
    variant: Option<Variant>)

  /** `prev.filter((t) => t.id !== id)`. */
  function WithoutToast(ts: seq<Toast>, id: string): seq<Toast>
  {
    Filter(ts, (t: Toast) => t.id != id)
  }

  /** Expiry removes exactly the toasts with that id and keeps the others in order. */
  lemma WithoutToastExactly(ts: seq<Toast>, id: string)
    ensures forall t :: t in WithoutToast(ts, id) <==> t in ts && t.id != id
    ensures (forall t :: t in ts ==> t.id != id) ==> WithoutToast(ts, id) == ts
  {
    FilterExactly(ts, (t: Toast) => t.id != id);
  }

  /** Showing a toast with a fresh id and letting it expire restores the list. */
  lemma ShowThenExpire(ts: seq<Toast>, t: Toast)
    requires forall u :: u in ts ==> u.id != t.id
    ensures WithoutToast(ts + [t], t.id) == ts
  {
    FilterAppend(ts, t, (u: Toast) => u.id != t.id);
    WithoutToastExactly(ts, t.id);
  }

  class NotificationCenter<A> {
    var toasts: seq<Toast>
    var confirmOptions: Option<ConfirmOptions<A>>

    constructor ()
      ensures toasts == [] && confirmOptions == None
    {
      toasts := [];
      confirmOptions := None;
    }

    /** `showToast`: appends one toast at the end. */
    method ShowToast(toastType: ToastType, message: string, id: string)
      modifies this
      ensures toasts == old(toasts) + [Toast(id, toastType, message)]
      ensures confirmOptions == old(confirmOptions)
    {
      toasts := toasts + [Toast(id, toastType, message)];
    }

    /** The timer of `showToast` firing: removes the toasts with that id. */
    method ExpireToast(id: string)
      modifies this
      ensures toasts == WithoutToast(old(toasts), id)
      ensures confirmOptions == old(confirmOptions)
    {
      toasts := WithoutToast(toasts, id);
    }

    /** `confirmAction`: the dialog replaces any pending one. */
    method ConfirmAction(options: ConfirmOptions<A>)
      modifies this
      ensures confirmOptions == Some(options)
      ensures toasts == old(toasts)
    {
      confirmOptions := Some(options);
    }

    /** `handleConfirm`: the pending `onConfirm` to run, then the dialog closes; nothing when none is pending. */
    method HandleConfirm() returns (run: Option<A>)
      modifies this
      ensures old(confirmOptions).None? ==> run == None && confirmOptions == None
      ensures old(confirmOptions).Some? ==> run == Some(old(confirmOptions).value.onConfirm) && confirmOptions == None
      ensures toasts == old(toasts)
    {
      run := None;
      if confirmOptions.Some? {
        run := Some(confirmOptions.value.onConfirm);
        confirmOptions := None;
      }
    }

    /** `handleCancel`: the pending `onCancel` to run if there is one, then the dialog closes. */
    method HandleCancel() returns (run: Option<A>)
      modifies this
      ensures old(confirmOptions).None? ==> run == None && confirmOptions == None
      ensures old(confirmOptions).Some? ==> run == old(confirmOptions).value.onCancel && confirmOptions == None
      ensures toasts == old(toasts)
    {
      run := None;
      if confirmOptions.Some? {
        run := confirmOptions.value.onCancel;
        confirmOptions := None;
      }
    }
  }
}
