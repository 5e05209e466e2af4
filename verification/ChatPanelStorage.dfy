/** The chat panel's snapshot in the tab's storage, and the scopes that may use it. */
module ChatPanelStorage {
  import opened Options

  /** A handle to one signed-in screen. Handles are compared by identity, which `id` stands for. */
  datatype Scope = Scope(id: nat, owner: string)

  /** `rest` stands for all fields that are stored as they are. */
  datatype Snapshot<M> = Snapshot(messages: seq<M>, rest: string)

  /** What is under the key: a snapshot with its owner, or text that does not pass the schema. */
  datatype Stored<M> = Owned(owner: string, snapshot: Snapshot<M>) | Invalid

  /** What happened to the stored data, for the properties about a whole page lifetime:
      a successful write, or an end of its use (sign-out, another owner, clearing, discarding). */
  datatype Event<M> = Saved(owner: string, snapshot: Snapshot<M>) | Ended

  datatype WriteResult = WroteIt | Skipped | Failed

  function Trim<M>(messages: seq<M>, max: int): seq<M> {
    if max <= 0 then [] else if |messages| <= max then messages else messages[|messages| - max..]
  }

  function TrimSnapshot<M>(snapshot: Snapshot<M>, max: int): Snapshot<M> {
    snapshot.(messages := Trim(snapshot.messages, max))
  }

  /** The data a reader is entitled to: of the latest write, unless its use has ended. `first` is
      what an earlier page left. */
  function Current<M>(first: Option<Stored<M>>, history: seq<Event<M>>): Option<Stored<M>> {
    if history == [] then first else
    match history[|history| - 1]
    case Saved(owner, snapshot) => Some(Owned(owner, snapshot))
    case Ended => None
  }

  /** Trimming on write and again on read keeps the newest messages, as many as both allow. */
  lemma TrimTwice<M>(messages: seq<M>, written: int, read: int)
    ensures Trim(Trim(messages, written), read) == Trim(messages, if written <= read then written else read)
    ensures exists older :: messages == older + Trim(messages, read)
  {
    assert messages == messages[..|messages| - |Trim(messages, read)|] + Trim(messages, read);
  }

  /** A positive maximum keeps that many of the newest messages, or all; any other keeps none. */
  lemma TrimKeepsTheNewest<M>(messages: seq<M>, max: int)
    ensures messages[|messages| - |Trim(messages, max)|..] == Trim(messages, max)
    ensures max > 0 && |messages| >= max ==> |Trim(messages, max)| == max
    ensures max > 0 && |messages| < max ==> Trim(messages, max) == messages
    ensures max <= 0 ==> Trim(messages, max) == []
  {
  }

  /** One page's module state and the tab's storage. Each `works` says whether the browser
      allows that storage operation this time. */
  class ChatStorage<M(==)> {
    var activeScope: Option<Scope>
    var canRestore: bool
    var storage: Option<Stored<M>>
    var issued: nat // handles given out so far
    ghost const first: Option<Stored<M>>
    ghost var history: seq<Event<M>>

    ghost predicate Valid()
      reads this
    {
      && (canRestore ==> storage == Current(first, history))
      && (activeScope.Some? ==> activeScope.value.id < issued)
    }

    constructor (left: Option<Stored<M>>)
      ensures Valid() && activeScope.None? && first == left && history == []
    {
      activeScope, canRestore, storage, issued, first, history := None, true, left, 0, left, [];
    }

    predicate IsActive(scope: Option<Scope>)
      reads this`activeScope
    {
      scope.Some? && scope == activeScope
    }

    /** What the tab holds for a screen of `owner`. */
    ghost function Kept(owner: string): Option<Snapshot<M>>
      reads this
    {
      if canRestore && Current(first, history).Some?
         && Current(first, history).value.Owned? && Current(first, history).value.owner == owner
      then Some(Current(first, history).value.snapshot) else None
    }

    /** What a read through `scope` may give. */
    ghost function Readable(scope: Option<Scope>): (r: Option<Snapshot<M>>)
      reads this
    {
      if IsActive(scope) then Kept(scope.value.owner) else None
    }

    method RemoveSnapshot(works: bool)
      modifies this`storage, this`canRestore, this`history
      ensures history == old(history) + [Ended]
      ensures canRestore == works && storage == if works then None else old(storage)
    {
      history := history + [Ended];
      if works {
        storage := None;
        canRestore := true;
      } else {
        canRestore := false;
      }
    }

    /** Gives the current data of the scope's owner, trimmed; unusable data is discarded. */
    method Read(scope: Option<Scope>, max: int, getWorks: bool, removeWorks: bool) returns (r: Option<Snapshot<M>>)
      requires Valid()
      modifies this`storage, this`canRestore, this`history
      ensures Valid()
      ensures r == if getWorks && old(Readable(scope)).Some? then
                var kept := old(Readable(scope)).value;
                Some(kept.(messages := Trim(kept.messages, max)))
              else None
      ensures !old(IsActive(scope)) || r.Some? ==> unchanged(this)
      ensures history == old(history) + [Ended] || unchanged(this)
      ensures old(canRestore) && old(IsActive(scope)) && old(Current(first, history)).Some? && r.None? ==>
                history == old(history) + [Ended]
      ensures storage == old(storage) || storage.None?
    {
      if !IsActive(scope) || !canRestore { return None; }
      if getWorks {
        if storage.None? { return None; }
        if storage.value.Owned? && storage.value.owner == scope.value.owner {
          return Some(TrimSnapshot(storage.value.snapshot, max));
        }
      }
      RemoveSnapshot(removeWorks);
      r := None;
    }

    /** Only the active scope writes; what is stored is trimmed and carries its owner. */
    method Write(scope: Option<Scope>, snapshot: Snapshot<M>, max: int, setWorks: bool) returns (r: WriteResult)
      requires Valid()
      modifies this`storage, this`canRestore, this`history
      ensures Valid()
      ensures r == if !old(IsActive(scope)) then Skipped else if setWorks then WroteIt else Failed
      ensures r != WroteIt ==> unchanged(this)
      ensures r == WroteIt ==> var trimmed := snapshot.(messages := Trim(snapshot.messages, max));
                               history == old(history) + [Saved(scope.value.owner, trimmed)]
                               && Readable(scope) == Some(trimmed)
    {
      if !IsActive(scope) { return Skipped; }
      if !setWorks { return Failed; }
      var trimmed := TrimSnapshot(snapshot, max);
      storage := Some(Owned(scope.value.owner, trimmed));
      canRestore := true;
      history := history + [Saved(scope.value.owner, trimmed)];
      r := WroteIt;
    }

    method Clear(scope: Option<Scope>, removeWorks: bool)
      requires Valid()
      modifies this`storage, this`canRestore, this`history
      ensures Valid()
      ensures if old(IsActive(scope)) then history == old(history) + [Ended] && Readable(scope).None?
              else unchanged(this)
    {
      if IsActive(scope) { RemoveSnapshot(removeWorks); }
    }

    /** Unmounting: the handle becomes stale, the data stays for a reload of the same session. */
    method Release(scope: Option<Scope>)
      requires Valid()
      modifies this`activeScope
      ensures Valid()
      ensures forall handle: Option<Scope> ::
                IsActive(handle) <==> handle.Some? && handle == old(activeScope) && handle != scope
      ensures Readable(scope).None?
      ensures forall owner :: Kept(owner) == old(Kept(owner))
    {
      if IsActive(scope) { activeScope := None; }
    }

    /** Signing in, switching and signing out. Data of another owner ends here even if it cannot
        be removed, and no handle that is not active ever becomes active again. */
    method Activate(owner: Option<string>, getWorks: bool, removeWorks: bool) returns (r: Option<Scope>)
      requires Valid()
      modifies this
      ensures Valid() && r == activeScope && (r.Some? <==> owner.Some?) && (r.Some? ==> r.value.owner == owner.value)
      ensures old(activeScope).Some? && owner == Some(old(activeScope).value.owner) ==> unchanged(this)
      ensures owner.None? || (old(activeScope).Some? && owner.value != old(activeScope).value.owner) ==>
                history == old(history) + [Ended] && Readable(activeScope).None?
      ensures owner.Some? && old(activeScope).None? ==>
                || (history == old(history) && storage == old(storage) && canRestore == old(canRestore))
                || history == old(history) + [Ended]
      ensures owner.Some? && old(activeScope).None? && old(Kept(owner.value)).Some? && getWorks ==>
                Readable(r) == old(Kept(owner.value))
      ensures owner.Some? && old(activeScope).None? && old(canRestore) && old(Current(first, history)).Some? ==>
                if getWorks && old(Current(first, history)).value.Owned?
                  && old(Current(first, history)).value.owner == owner.value
                then Readable(r) == Some(old(Current(first, history)).value.snapshot)
                else history == old(history) + [Ended]
      ensures forall stale: Option<Scope> ::
                stale.Some? && stale.value.id < old(issued) && !old(IsActive(stale)) ==> !IsActive(stale)
      ensures issued >= old(issued)
    {
      if owner.Some? && activeScope.Some? && activeScope.value.owner == owner.value { return activeScope; }
      var hadScope := activeScope.Some?;
      if owner.None? {
        activeScope := None;
      } else {
        activeScope := Some(Scope(issued, owner.value));
        issued := issued + 1;
      }
      if activeScope.None? || hadScope {
        RemoveSnapshot(removeWorks);
      } else {
        var _ := Read(activeScope, 0, getWorks, removeWorks);
      }
      r := activeScope;
    }
  }
}
