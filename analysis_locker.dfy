// The per-URL analysis lock of internal/adapters/analysis_locker.go, as a
// sequential abstraction: the URLs that have a mutex in the table (`known`)
// and the URLs whose mutex is currently locked (`held`). The closure that
// Acquire returns is the Release method.
module AnalysisLocker {
  import opened Common
  import opened DomainErrors

  datatype LockTable = LockTable(known: set<string>, held: set<string>)

  /** Acquire on the table: the URL gets a mutex if it had none; TryLock
      succeeds exactly when it is not held. */
  function Acquired(t: LockTable, url: string): (r: (LockTable, Option<Error>))
    ensures r.0.known == t.known + {url}
    ensures url in t.held ==> r.1 == Some(Bare(ErrAnalysisInProgress)) && r.0.held == t.held
    ensures url !in t.held ==> r.1 == None && r.0.held == t.held + {url}
  {
    if url in t.held then (t.(known := t.known + {url}), Some(Bare(ErrAnalysisInProgress)))
    else (LockTable(t.known + {url}, t.held + {url}), None)
  }

  /** The release closure: unlocks the URL's mutex. */
  function Released(t: LockTable, url: string): (r: LockTable)
    ensures r.known == t.known && r.held == t.held - {url}
  {
    t.(held := t.held - {url})
  }

  /** IsLocked on the table. */
  predicate Locked(t: LockTable, url: string)
  {
    url in t.known && url in t.held
  }

  /** Acquiring a held URL fails and changes nothing else. */
  lemma AcquireHeldFails(t: LockTable, url: string)
    requires Locked(t, url)
    ensures Acquired(t, url) == (t, Some(Bare(ErrAnalysisInProgress)))
  {
    assert t.known + {url} == t.known;
  }

  /** After a successful acquire, the released URL can be acquired again. */
  lemma ReleaseMakesAcquirable(t: LockTable, url: string)
    requires Acquired(t, url).1.None?
    ensures Acquired(Released(Acquired(t, url).0, url), url).1.None?
    ensures Released(Acquired(t, url).0, url).held == t.held
  {
  }

  /** Locks are independent per URL: acquiring or releasing one URL never
      changes whether another is locked. */
  lemma LocksIndependent(t: LockTable, url: string, other: string)
    requires url != other
    ensures Locked(Acquired(t, url).0, other) <==> Locked(t, other)
    ensures Locked(Released(t, url), other) <==> Locked(t, other)
  {
  }

  class InMemoryLocker {
    var known: set<string>
    var held: set<string>

    function Table(): LockTable
      reads this
    {
      LockTable(known, held)
    }

    /** Every locked URL has a mutex in the table. */
    predicate Valid()
      reads this
    {
      held <= known
    }

    /** NewInMemoryLocker: an empty table. */
    constructor ()
      ensures Valid() && Table() == LockTable({}, {})
    {
      known, held := {}, {};
    }

    /** Acquire: nil on success, ErrAnalysisInProgress when the URL's lock is
        already held. */
    method Acquire(url: string) returns (err: Option<Error>)
      requires Valid()
      modifies this
      ensures Valid()
      ensures (Table(), err) == Acquired(old(Table()), url)
    {
      known := known + {url};
      if url in held {
        err := Some(Bare(ErrAnalysisInProgress));
      } else {
        held := held + {url};
        err := None;
      }
    }

    /** The release closure returned by a successful Acquire. */
    method Release(url: string)
      requires Valid() && url in held
      modifies this
      ensures Valid()
      ensures Table() == Released(old(Table()), url)
    {
      held := held - {url};
    }

    /** IsLocked: false for a URL with no mutex; otherwise a TryLock that is
        undone at once, so whether it is held and nothing changes. */
    method IsLocked(url: string) returns (b: bool)
      requires Valid()
      ensures b <==> Locked(Table(), url)
      ensures url !in known ==> !b
    {
      if url !in known {
        return false;
      }
      b := url in held;
    }
  }
}
