/** The process-wide registry of per-tenant locks that stands in for PostgreSQL's advisory locks. */
module LockRegistry {
  import opened Tables

  class Registry {
    // Whether each lock created so far is held.  Locks are created on first use and never removed.
    var locks: map<Tenant, bool>

    constructor ()
      ensures Locked() == {}
    {
      locks := map[];
    }

    function Locked(): set<Tenant>
      reads this
    {
      set t | t in locks && locks[t]
    }

    /** Non-blocking acquire; a lock is created unlocked when it is first asked for. */
    method TryAcquire(tenant: Tenant) returns (acquired: bool)
      modifies this
      ensures acquired <==> tenant !in old(Locked())
      ensures Locked() == old(Locked()) + {tenant}
    {
      if tenant !in locks {
        locks := locks[tenant := false];
      }
      acquired := !locks[tenant];
      locks := locks[tenant := true];
    }

    /** Guarded release: a lock nobody holds, or that was never created, is left alone. */
    method Release(tenant: Tenant)
      modifies this
      ensures Locked() == old(Locked()) - {tenant}
    {
      if tenant in locks && locks[tenant] {
        locks := locks[tenant := false];
      }
    }
  }
}
