// Fetching a document with the last good copy to fall back on (services/directory_client.js).
module DirectoryClient {
  import opened Wrappers

  datatype Stamped<T> = Stamped(at: nat, value: T)

  /** What fetchWithCache returns. */
  datatype Fetched<T> = Fetched(value: Option<T>, stale: bool, cachedAt: Option<nat>)

  /** One attempt: the directory's answer, if any, the time, and whether Redis can be written and read. */
  datatype Attempt<T> = Attempt(response: Option<T>, now: nat, canWrite: bool, canRead: bool)

  function StoredAfter<T>(stored: Option<Stamped<T>>, a: Attempt<T>): Option<Stamped<T>> {
    if a.response.Some? && a.canWrite then Some(Stamped(a.now, a.response.value)) else stored
  }

  function Served<T>(stored: Option<Stamped<T>>, a: Attempt<T>): Fetched<T> {
    if a.response.Some? then Fetched(a.response, false, Some(a.now))
    else if !a.canRead || stored == None then Fetched(None, true, None)
    else Fetched(Some(stored.value.value), true, Some(stored.value.at))
  }

  /** The Redis entry of one document. */
  class CacheEntry<T(==)> {
    var stored: Option<Stamped<T>>

    constructor ()
      ensures stored == None
    {
      stored := None;
    }

    method Write(a: Attempt<T>, value: T)
      modifies this
      ensures stored == if a.canWrite then Some(Stamped(a.now, value)) else old(stored)
    {
      if a.canWrite {
        stored := Some(Stamped(a.now, value));
      }
    }

    method Read(a: Attempt<T>) returns (cached: Option<Stamped<T>>)
      ensures cached == if a.canRead then stored else None
    {
      cached := if a.canRead then stored else None;
    }

    method FetchWithCache(a: Attempt<T>) returns (r: Fetched<T>)
      modifies this
      ensures stored == StoredAfter(old(stored), a)
      ensures r == Served(old(stored), a)
      ensures a.response.Some? ==> r.value == a.response && !r.stale && r.cachedAt == Some(a.now)
      ensures a.response == None ==> r.stale && stored == old(stored)
    {
      if a.response.Some? {
        Write(a, a.response.value);
        return Fetched(a.response, false, Some(a.now));
      }
      var cached := Read(a);
      if cached == None {
        return Fetched(None, true, None);
      }
      r := Fetched(Some(cached.value.value), true, Some(cached.value.at));
    }
  }

  // --------------------------------------------------------------- whole runs

  function StoredAfterRun<T>(stored: Option<Stamped<T>>, run: seq<Attempt<T>>): Option<Stamped<T>>
    decreases run
  {
    if run == [] then stored else StoredAfterRun(StoredAfter(stored, run[0]), run[1..])
  }

  /** The `i`th attempt is the last whose answer came and could be written. */
  ghost predicate LastGood<T>(run: seq<Attempt<T>>, i: int) {
    && 0 <= i < |run| && run[i].response.Some? && run[i].canWrite
    && forall j :: i < j < |run| ==> !(run[j].response.Some? && run[j].canWrite)
  }

  ghost predicate NoneGood<T>(run: seq<Attempt<T>>) {
    forall j :: 0 <= j < |run| ==> !(run[j].response.Some? && run[j].canWrite)
  }

  /** The cache holds the last version that was both fetched and written, with the time it was fetched. */
  lemma {:induction false} CacheHoldsLastGood<T>(stored: Option<Stamped<T>>, run: seq<Attempt<T>>)
    ensures NoneGood(run) ==> StoredAfterRun(stored, run) == stored
    ensures forall i :: LastGood(run, i) ==>
              StoredAfterRun(stored, run) == Some(Stamped(run[i].now, run[i].response.value))
    ensures !NoneGood(run) ==> exists i :: LastGood(run, i)
    decreases run
  {
    if run != [] {
      CacheHoldsLastGood(StoredAfter(stored, run[0]), run[1..]);
      assert forall j :: 0 < j < |run| ==> run[j] == run[1..][j - 1];
      assert forall j :: 0 <= j < |run| - 1 ==> run[1..][j] == run[j + 1];
      if NoneGood(run[1..]) {
        assert !NoneGood(run) ==> LastGood(run, 0);
      } else {
        var i :| LastGood(run[1..], i);
        assert LastGood(run, i + 1);
      }
      forall i | LastGood(run, i)
        ensures StoredAfterRun(stored, run) == Some(Stamped(run[i].now, run[i].response.value))
      {
        if i > 0 {
          assert LastGood(run[1..], i - 1);
        } else {
          assert NoneGood(run[1..]);
        }
      }
    }
  }

  /** A gateway that cannot reach the directory works from the last version it saw and saved, and says so;
      it has nothing only if it never saved one, or cannot read what it saved. */
  lemma OutageServesLastGood<T>(run: seq<Attempt<T>>, a: Attempt<T>)
    requires a.response == None
    ensures var r := Served(StoredAfterRun(None, run), a);
      && r.stale
      && (r.value == None <==> !a.canRead || NoneGood(run))
      && (forall i :: a.canRead && LastGood(run, i) ==> r.value == run[i].response && r.cachedAt == Some(run[i].now))
  {
    CacheHoldsLastGood(None, run);
  }
}
