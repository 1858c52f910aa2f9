/** The access gate (`context/AuthContext.tsx`): a locked/unlocked flag
    mirrored in one key of the browser's persistent storage, and a `mounted`
    flag that holds back rendering until the stored state has been read. */
module AccessGate {
  import opened Records

  /** The storage key that holds the unlocked state. */
  const StorageKey := "pt_ration_unlocked"

  /** What a fresh start reads from storage: unlocked exactly when the key
      holds the text `"true"`. */
  predicate StoredUnlocked(storage: map<string, string>) {
    StorageKey in storage && storage[StorageKey] == "true"
  }

  /** `process.env.NEXT_PUBLIC_ADMIN_PASSWORD ?? ""`. */
  function SecretOf(configured: Option<string>): string {
    if configured.Some? then configured.value else ""
  }

  /** The provider's state and the storage it writes. */
  class Gate {
    const secret: string
    var storage: map<string, string>
    var isUnlocked: bool
    var mounted: bool

    /** The first render: locked and not yet mounted, storage as persisted. */
    constructor (configured: Option<string>, persisted: map<string, string>)
      ensures secret == SecretOf(configured) && storage == persisted
      ensures !isUnlocked && !mounted && !Renders() && Mirrors()
    {
      secret := SecretOf(configured);
      storage := persisted;
      isUnlocked := false;
      mounted := false;
    }

    /** Once mounted, the flag mirrors the storage key: unlocked exactly when
        the key holds `"true"`. */
    predicate Mirrors()
      reads this
    {
      mounted ==> isUnlocked == StoredUnlocked(storage)
    }

    /** Nothing is rendered until the stored state has been restored. */
    predicate Renders()
      reads this
    {
      mounted
    }

    /** The startup effect: reads the stored flag, then marks the provider
        mounted. */
    method Restore()
      modifies this
      ensures isUnlocked == StoredUnlocked(storage) && mounted && Renders() && Mirrors()
      ensures storage == old(storage)
    {
      isUnlocked := StorageKey in storage && storage[StorageKey] == "true";
      mounted := true;
    }

    /** `unlock(code)`: succeeds exactly when the code is the secret; then
        stores `"true"` under the key and unlocks. A wrong code changes
        nothing. */
    method Unlock(code: string) returns (ok: bool)
      modifies this
      ensures ok == (code == secret)
      ensures ok ==> storage == old(storage)[StorageKey := "true"] && isUnlocked
      ensures !ok ==> storage == old(storage) && isUnlocked == old(isUnlocked)
      ensures mounted == old(mounted)
      ensures ok || old(Mirrors()) ==> Mirrors()
    {
      if code == secret {
        storage := storage[StorageKey := "true"];
        isUnlocked := true;
        return true;
      }
      return false;
    }

    /** `lock()`: removes the key and locks, whatever the state was. */
    method Lock()
      modifies this
      ensures storage == old(storage) - {StorageKey} && !isUnlocked
      ensures mounted == old(mounted) && Mirrors()
    {
      storage := storage - {StorageKey};
      isUnlocked := false;
    }
  }

  /** A successful unlock survives a reload: the next start restores the
      unlocked state. A wrong code leaves what the next start reads as it
      was. */
  method UnlockThenReload(configured: Option<string>, persisted: map<string, string>, code: string)
    returns (ok: bool, unlockedAfterReload: bool)
    ensures ok == (code == SecretOf(configured))
    ensures ok ==> unlockedAfterReload
    ensures !ok ==> unlockedAfterReload == StoredUnlocked(persisted)
  {
    var g := new Gate(configured, persisted);
    g.Restore();
    ok := g.Unlock(code);
    var next := new Gate(configured, g.storage);
    next.Restore();
    unlockedAfterReload := next.isUnlocked;
  }

  /** After `lock()` and a reload the gate is locked, and locking twice
      leaves the same storage as locking once. */
  method LockThenReload(configured: Option<string>, persisted: map<string, string>)
    returns (unlockedAfterReload: bool, storedOnce: map<string, string>, storedTwice: map<string, string>)
    ensures !unlockedAfterReload
    ensures StorageKey !in storedOnce && storedTwice == storedOnce
    ensures forall k | k in persisted && k != StorageKey :: k in storedOnce && storedOnce[k] == persisted[k]
  {
    var g := new Gate(configured, persisted);
    g.Restore();
    g.Lock();
    storedOnce := g.storage;
    g.Lock();
    storedTwice := g.storage;
    var next := new Gate(configured, g.storage);
    next.Restore();
    unlockedAfterReload := next.isUnlocked;
  }

  /** With no secret configured, the empty code unlocks. */
  method UnsetSecretAcceptsEmptyCode(persisted: map<string, string>) returns (ok: bool)
    ensures ok
  {
    var g := new Gate(None, persisted);
    g.Restore();
    ok := g.Unlock("");
  }
}
