/**
 * The generic repository over an entity set: staged changes (the context's view of the
 * set), the rows saved to the database, and the auto-save counter that decides whether
 * a mutating operation saves on its own.
 */
module CrudRepository {
  import opened Wrappers

  /**
   * One `_saveInternalAsync` on counter value `counter`: whether it saves, and the
   * counter afterwards.
   */
  function AutoSaveStep(counter: int): (bool, int) {
    if counter == -1 then (true, -1)
    else if counter > 0 then (true, counter - 1)
    else (false, counter)
  }

  /** The number of saves made by `k` consecutive auto-save steps starting at `counter`. */
  function SavesOver(counter: int, k: nat): nat
    decreases k
  {
    if k == 0 then 0
    else (if AutoSaveStep(counter).0 then 1 else 0) + SavesOver(AutoSaveStep(counter).1, k - 1)
  }

  /** The counter after `k` consecutive auto-save steps starting at `counter`. */
  function CounterAfter(counter: int, k: nat): int
    decreases k
  {
    if k == 0 then counter else CounterAfter(AutoSaveStep(counter).1, k - 1)
  }

  /**
   * The counter's meaning: from `n >= 0` the next `k` mutating operations make
   * `min(k, n)` saves and leave `max(n - k, 0)`; at -1 every operation saves and the
   * counter stays -1; below -1 nothing ever saves and the counter never moves.
   */
  lemma {:induction false} AutoSaveCounting(n: int, k: nat)
    ensures n >= 0 ==> SavesOver(n, k) == (if k < n then k else n) && CounterAfter(n, k) == (if k < n then n - k else 0)
    ensures n == -1 ==> SavesOver(n, k) == k && CounterAfter(n, k) == -1
    ensures n < -1 ==> SavesOver(n, k) == 0 && CounterAfter(n, k) == n
    decreases k
  {
    if k > 0 {
      AutoSaveCounting(AutoSaveStep(n).1, k - 1);
    }
  }

  /**
   * `BaseAsyncCrudRepository`: `local` is the set as the context sees it (staged adds,
   * updates and removals included), `database` what the last save committed, and
   * `autoSaveRequests` the auto-save counter. Entities are keyed by `keyOf`.
   */
  class BaseAsyncCrudRepository<T> {
    const keyOf: T -> int
    var local: map<int, T>
    var database: map<int, T>
    var autoSaveRequests: int

    /** Every staged and every saved entity sits under its own key. */
    predicate Valid()
      reads this
    {
      && (forall k :: k in local ==> keyOf(local[k]) == k)
      && (forall k :: k in database ==> keyOf(database[k]) == k)
    }

    /** A repository over the saved rows `database`, with nothing staged and the counter at 0. */
    constructor (keyOf: T -> int, database: map<int, T>)
      requires forall k :: k in database ==> keyOf(database[k]) == k
      ensures Valid()
      ensures this.keyOf == keyOf && this.database == database && local == database
      ensures autoSaveRequests == 0
    {
      this.keyOf := keyOf;
      this.database := database;
      local := database;
      autoSaveRequests := 0;
    }

    /** Sets the counter to `nextRequestsCount` and returns this same repository. */
    method WithAutoSaveNext(nextRequestsCount: int := 1) returns (r: BaseAsyncCrudRepository<T>)
      requires Valid()
      modifies this
      ensures Valid()
      ensures r == this && autoSaveRequests == nextRequestsCount
      ensures local == old(local) && database == old(database)
    {
      autoSaveRequests := nextRequestsCount;
      r := this;
    }

    /** Commits every staged change whatever the counter, and returns this repository. */
    method SaveAsync() returns (r: BaseAsyncCrudRepository<T>)
      requires Valid()
      modifies this
      ensures Valid()
      ensures r == this && database == local
      ensures local == old(local) && autoSaveRequests == old(autoSaveRequests)
    {
      database := local;
      r := this;
    }

    /** One auto-save step: saves and updates the counter as `AutoSaveStep` says. */
    method SaveInternal()
      requires Valid()
      modifies this
      ensures Valid()
      ensures autoSaveRequests == AutoSaveStep(old(autoSaveRequests)).1
      ensures database == (if AutoSaveStep(old(autoSaveRequests)).0 then local else old(database))
      ensures local == old(local)
    {
      if autoSaveRequests == -1 {
        var _ := SaveAsync();
        return;
      }
      if autoSaveRequests > 0 {
        autoSaveRequests := autoSaveRequests - 1;
        var _ := SaveAsync();
      }
    }

    /** Stages `entity` as added, takes one auto-save step, and returns the entity. */
    method Add(entity: T) returns (r: T)
      requires Valid()
      modifies this
      ensures Valid()
      ensures r == entity && local == old(local)[keyOf(entity) := entity]
      ensures autoSaveRequests == AutoSaveStep(old(autoSaveRequests)).1
      ensures database == (if AutoSaveStep(old(autoSaveRequests)).0 then local else old(database))
    {
      local := local[keyOf(entity) := entity];
      SaveInternal();
      r := entity;
    }

    /** The entity with key `id` as the context sees it. */
    method Get(id: int) returns (r: Option<T>)
      ensures r.Some? <==> id in local
      ensures r.Some? ==> r.value == local[id]
    {
      if id in local {
        r := Some(local[id]);
      } else {
        r := None;
      }
    }

    /** Stages `entity` as the new content of its key, takes one auto-save step, and returns it. */
    method Update(entity: T) returns (r: T)
      requires Valid()
      modifies this
      ensures Valid()
      ensures r == entity && local == old(local)[keyOf(entity) := entity]
      ensures autoSaveRequests == AutoSaveStep(old(autoSaveRequests)).1
      ensures database == (if AutoSaveStep(old(autoSaveRequests)).0 then local else old(database))
    {
      local := local[keyOf(entity) := entity];
      SaveInternal();
      r := entity;
    }

    /**
     * A null entity returns false and touches nothing, not even the counter; otherwise the
     * entity is staged as removed, one auto-save step is taken, and the result is true.
     */
    method Delete(entity: Option<T>) returns (deleted: bool)
      requires Valid()
      modifies this
      ensures Valid()
      ensures deleted <==> entity.Some?
      ensures entity.None? ==>
        local == old(local) && database == old(database) && autoSaveRequests == old(autoSaveRequests)
      ensures entity.Some? ==>
        && local == old(local) - {keyOf(entity.value)}
        && autoSaveRequests == AutoSaveStep(old(autoSaveRequests)).1
        && database == (if AutoSaveStep(old(autoSaveRequests)).0 then local else old(database))
    {
      if entity.None? {
        return false;
      }
      local := local - {keyOf(entity.value)};
      SaveInternal();
      deleted := true;
    }

    /** Looks the key up and deletes what it finds: an unknown key gives false and no change. */
    method DeleteById(id: int) returns (deleted: bool)
      requires Valid()
      modifies this
      ensures Valid()
      ensures deleted <==> id in old(local)
      ensures !deleted ==>
        local == old(local) && database == old(database) && autoSaveRequests == old(autoSaveRequests)
      ensures deleted ==>
        && local == old(local) - {id}
        && autoSaveRequests == AutoSaveStep(old(autoSaveRequests)).1
        && database == (if AutoSaveStep(old(autoSaveRequests)).0 then local else old(database))
    {
      var entity := Get(id);
      deleted := Delete(entity);
    }
  }
}
