/**
 What the shim relies on in the ulmk kernel, which is not part of this model: a new notification or thread gets an id
 that no live one has, and only live ones are destroyed or ended. The kernel's choice of an id, or its refusal, is the
 `offer` of each call.
 */
module Kernel {
  import opened Prelude

  type Handle = nat
  type Tid = nat

  class System {
    var notifs: set<Handle>
    var threads: set<Tid>

    constructor ()
      ensures notifs == {} && threads == {}
    {
      notifs, threads := {}, {};
    }

    /** `ulmk_notif_create`; None is ULMK_NOTIF_INVALID. */
    method NotifCreate(offer: Option<Handle>) returns (h: Option<Handle>)
      requires offer.Some? ==> offer.value !in notifs
      modifies `notifs
      ensures h == offer
      ensures notifs == old(notifs) + if offer.Some? then {offer.value} else {}
    {
      if offer.Some? {
        notifs := notifs + {offer.value};
      }
      h := offer;
    }

    /** `ulmk_notif_destroy`, of a live notification. */
    method NotifDestroy(h: Handle)
      requires h in notifs
      modifies `notifs
      ensures notifs == old(notifs) - {h}
    {
      notifs := notifs - {h};
    }

    /** `ulmk_thread_create`; None is a negative or invalid thread id. */
    method ThreadCreate(offer: Option<Tid>) returns (t: Option<Tid>)
      requires offer.Some? ==> offer.value !in threads
      modifies `threads
      ensures t == offer
      ensures threads == old(threads) + if offer.Some? then {offer.value} else {}
    {
      if offer.Some? {
        threads := threads + {offer.value};
      }
      t := offer;
    }

    /** `ulmk_thread_kill` of a live thread, or `ulmk_thread_exit` by it. */
    method ThreadEnd(t: Tid)
      requires t in threads
      modifies `threads
      ensures threads == old(threads) - {t}
    {
      threads := threads - {t};
    }
  }
}
