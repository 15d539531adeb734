/** The toast list of components/ui/Toast.tsx: `ToastProvider` keeps the
    shown toasts, `toast` appends one and `dismiss` removes by id. The
    random id is a parameter; the four-second auto-dismiss timer is not
    modelled. */
module Toast {
  import opened Common

  datatype Variant = Success | Error | Info

  /** `ToastItem`. */
  datatype ToastItem = ToastItem(id: string, message: string, variant: Variant)

  /** `prev.filter((t) => t.id !== id)`. */
  function Without(toasts: seq<ToastItem>, id: string): seq<ToastItem>
  {
    if toasts == [] then []
    else (if toasts[0].id == id then [] else [toasts[0]]) + Without(toasts[1..], id)
  }

  /** Some toast in the list has this id. */
  predicate HasId(toasts: seq<ToastItem>, id: string) {
    exists k :: 0 <= k < |toasts| && toasts[k].id == id
  }

  lemma {:induction false} WithoutAppend(a: seq<ToastItem>, b: seq<ToastItem>, id: string)
    ensures Without(a + b, id) == Without(a, id) + Without(b, id)
    decreases |a|
  {
    if a == [] {
      assert a + b == b;
    } else {
      var head: seq<ToastItem> := if a[0].id == id then [] else [a[0]];
      assert (a + b)[0] == a[0];
      assert (a + b)[1..] == a[1..] + b;
      WithoutAppend(a[1..], b, id);
      calc {
        Without(a + b, id);
        head + Without(a[1..] + b, id);
        head + (Without(a[1..], id) + Without(b, id));
        (head + Without(a[1..], id)) + Without(b, id);
      }
    }
  }

  /** Dismissing an id that no toast has leaves the list unchanged. */
  lemma {:induction false} WithoutAbsent(toasts: seq<ToastItem>, id: string)
    requires !HasId(toasts, id)
    ensures Without(toasts, id) == toasts
  {
    if toasts != [] {
      assert !HasId(toasts[1..], id) by {
        forall k | 0 <= k < |toasts[1..]|
          ensures toasts[1..][k].id != id
        {
          assert toasts[1..][k] == toasts[k + 1];
        }
      }
      WithoutAbsent(toasts[1..], id);
      assert toasts == [toasts[0]] + toasts[1..];
    }
  }

  /** After dismissing an id no toast has it. */
  lemma {:induction false} DismissRemovesAll(toasts: seq<ToastItem>, id: string)
    ensures !HasId(Without(toasts, id), id)
  {
    if toasts != [] {
      var head: seq<ToastItem> := if toasts[0].id == id then [] else [toasts[0]];
      var rest := Without(toasts[1..], id);
      DismissRemovesAll(toasts[1..], id);
      forall k | 0 <= k < |head + rest|
        ensures (head + rest)[k].id != id
      {
        if k >= |head| {
          assert (head + rest)[k] == rest[k - |head|];
        }
      }
    }
  }

  /** Dismissing twice is dismissing once. */
  lemma DismissIdempotent(toasts: seq<ToastItem>, id: string)
    ensures Without(Without(toasts, id), id) == Without(toasts, id)
  {
    DismissRemovesAll(toasts, id);
    WithoutAbsent(Without(toasts, id), id);
  }

  /** Dismissing one id keeps the toasts of every other id, in order:
      restricted to any other id, the list is what it was. */
  lemma {:induction false} DismissKeepsOthers(toasts: seq<ToastItem>, id: string, other: string)
    requires other != id
    ensures Only(Without(toasts, id), other) == Only(toasts, other)
  {
    if toasts != [] {
      var head: seq<ToastItem> := if toasts[0].id == id then [] else [toasts[0]];
      DismissKeepsOthers(toasts[1..], id, other);
      OnlyAppend(head, Without(toasts[1..], id), other);
    }
  }

  /** The toasts with id `id`, in order. */
  function Only(toasts: seq<ToastItem>, id: string): seq<ToastItem> {
    if toasts == [] then []
    else (if toasts[0].id == id then [toasts[0]] else []) + Only(toasts[1..], id)
  }

  lemma {:induction false} OnlyAppend(a: seq<ToastItem>, b: seq<ToastItem>, id: string)
    ensures Only(a + b, id) == Only(a, id) + Only(b, id)
    decreases |a|
  {
    if a == [] {
      assert a + b == b;
    } else {
      var head: seq<ToastItem> := if a[0].id == id then [a[0]] else [];
      assert (a + b)[0] == a[0];
      assert (a + b)[1..] == a[1..] + b;
      OnlyAppend(a[1..], b, id);
      calc {
        Only(a + b, id);
        head + Only(a[1..] + b, id);
        head + (Only(a[1..], id) + Only(b, id));
        (head + Only(a[1..], id)) + Only(b, id);
      }
    }
  }

  /** A toast with a fresh id, dismissed, gives back the earlier list. */
  lemma ToastThenDismiss(toasts: seq<ToastItem>, item: ToastItem)
    requires !HasId(toasts, item.id)
    ensures Without(toasts + [item], item.id) == toasts
  {
    WithoutAppend(toasts, [item], item.id);
    WithoutAbsent(toasts, item.id);
  }

  /** The state of `ToastProvider`. */
  class ToastProvider {
    var toasts: seq<ToastItem>

    constructor()
      ensures toasts == []
    {
      toasts := [];
    }

    /** `toast(message, variant = "success")` with the id `freshId` that
        `crypto.randomUUID` returned: one item is appended, the earlier ones
        stay as they were. */
    method Toast(message: string, variant: Option<Variant>, freshId: string)
      modifies this
      ensures toasts == old(toasts) + [ToastItem(freshId, message, variant.GetOr(Success))]
    {
      toasts := toasts + [ToastItem(freshId, message, variant.GetOr(Success))];
    }

    /** `dismiss(id)`: every toast with that id is removed. */
    method Dismiss(id: string)
      modifies this
      ensures toasts == Without(old(toasts), id)
    {
      toasts := Without(toasts, id);
    }
  }

  /** `useToast`: the provider's context, or the error it throws outside a
      provider. */
  function UseToast<C>(ctx: Option<C>): (r: Result<C>)
    ensures r.Err? <==> ctx.None?
    ensures r.Ok? ==> r.value == ctx.value
    ensures r.Err? ==> r.message == "useToast must be used within ToastProvider"
  {
    match ctx
    case None => Err("useToast must be used within ToastProvider")
    case Some(c) => Ok(c)
  }
}
