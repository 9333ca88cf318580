/** The list of configured vaults that auth setup and auth logout keep beside the credential store. */
module AuthSetup {
  import opened Wrappers
  import opened CredentialStore

  datatype VaultEntry = VaultEntry(id: string, name: string, filePath: string)

  predicate UniqueIds(vaults: seq<VaultEntry>) {
    forall i, j :: 0 <= i < j < |vaults| ==> vaults[i].id != vaults[j].id
  }

  /** The first entry of a vault. */
  function Find(vaults: seq<VaultEntry>, id: string): Option<VaultEntry> {
    if vaults == [] then None
    else if vaults[0].id == id then Some(vaults[0])
    else Find(vaults[1..], id)
  }

  function IndexOf(vaults: seq<VaultEntry>, id: string): (i: nat)
    ensures i <= |vaults|
    ensures i < |vaults| ==> vaults[i].id == id
    ensures forall k :: 0 <= k < i ==> vaults[k].id != id
  {
    if vaults == [] || vaults[0].id == id then 0 else 1 + IndexOf(vaults[1..], id)
  }

  function Upserted(vaults: seq<VaultEntry>, entry: VaultEntry): seq<VaultEntry> {
    var i := IndexOf(vaults, entry.id);
    if i < |vaults| then vaults[i := entry] else vaults + [entry]
  }

  /** To write an entry is to update a map from ids: one vault changes, and no id is ever listed twice. */
  lemma {:induction false} UpsertRefinesMapUpdate(vaults: seq<VaultEntry>, entry: VaultEntry, id: string)
    ensures Find(Upserted(vaults, entry), id) == if id == entry.id then Some(entry) else Find(vaults, id)
    ensures UniqueIds(vaults) ==> UniqueIds(Upserted(vaults, entry))
    decreases |vaults|
  {
    if vaults != [] && vaults[0].id != entry.id {
      UpsertRefinesMapUpdate(vaults[1..], entry, id);
      assert Upserted(vaults, entry) == [vaults[0]] + Upserted(vaults[1..], entry);
    }
    var i := IndexOf(vaults, entry.id);
    if i == |vaults| {
      assert forall k :: 0 <= k < |vaults| ==> Upserted(vaults, entry)[k] == vaults[k];
    }
  }

  function Without(vaults: seq<VaultEntry>, id: string): (rest: seq<VaultEntry>)
    ensures forall v :: v in rest <==> v in vaults && v.id != id
  {
    if vaults == [] then []
    else (if vaults[0].id != id then [vaults[0]] else []) + Without(vaults[1..], id)
  }

  /** What logging out leaves of the list; nothing for a call that is refused. */
  function AfterLogout(vaults: seq<VaultEntry>, vaultId: Option<string>, everything: bool): Option<seq<VaultEntry>> {
    if everything then Some([])
    else if Truthy(vaultId) then Some(Without(vaults, vaultId.value))
    else if |vaults| == 1 then Some([])
    else None
  }

  /** No password of the vault can be read. */
  ghost predicate LoggedOut(store: Store, id: string)
    reads store
  {
    store.Readback(ServerAccount(id)) == None && store.Readback(DecryptAccount(id)) == None
  }

  /** `clearCredentials`: it may throw between its two deletions, and never makes a password readable. */
  method ClearCredentials(store: Store, id: string, outs: (Outside, Outside)) returns (ok: bool)
    requires store.Valid()
    modifies store`keyringModule, store`keyring, store`file
    ensures store.Valid()
    ensures ok && (store.useFileFallback || (outs.0.keyringOk && outs.1.keyringOk)) ==> LoggedOut(store, id)
    ensures ok ==> forall a :: store.Readback(a) == None || store.Readback(a) == old(store.Readback(a))
    ensures ok <==> (Truthy(store.filePassphrase) ==> old(store.FileTakes(outs.0)) && outs.1.writeOk)
    ensures ok && Truthy(store.filePassphrase) ==> store.FileAccounts(store.filePassphrase.value).Some?
  {
    ok := store.Del(ServerAccount(id), outs.0);
    if ok {
      ok := store.Del(DecryptAccount(id), outs.1);
    }
  }

  /** The configuration file. */
  class Config {
    var vaults: seq<VaultEntry>

    constructor ()
      ensures vaults == []
    {
      vaults := [];
    }

    /** `saveVaultEntry` */
    method SaveVaultEntry(entry: VaultEntry, saveOk: bool) returns (ok: bool)
      modifies this
      ensures ok == saveOk
      ensures vaults == if ok then Upserted(old(vaults), entry) else old(vaults)
    {
      var existing := 0;
      while existing < |vaults| && vaults[existing].id != entry.id
        invariant existing <= |vaults| && vaults == old(vaults)
        invariant forall k :: 0 <= k < existing ==> vaults[k].id != entry.id
      {
        existing := existing + 1;
      }
      if saveOk {
        vaults := if existing < |vaults| then vaults[existing := entry] else vaults + [entry];
      }
      return saveOk;
    }

    /** How many vaults a call that is not refused clears. */
    function Cleared(everything: bool): nat
      reads this
    {
      if everything then |vaults| else 1
    }

    /**
     * `executeAuthLogout`. It succeeds exactly if it names what to clear, the list can be saved, and the file, if
     * one is used, can be rewritten for each password; only the first rewrite may meet a file it cannot open. A
     * vault disappears from the list only when all deletions for it went through, and with a keyring that obeys (or
     * with the file) none of its passwords can be read any more.
     */
    method Logout(store: Store, vaultId: Option<string>, everything: bool,
                  outs: nat -> (Outside, Outside), saveOk: bool) returns (ok: bool)
      requires store.Valid()
      modifies this, store`keyringModule, store`keyring, store`file
      ensures store.Valid()
      ensures ok <==>
                && (everything || Truthy(vaultId) || |old(vaults)| == 1) && saveOk
                && (Truthy(store.filePassphrase) && old(Cleared(everything)) > 0 ==> old(store.FileTakes(outs(0).0)))
                && (Truthy(store.filePassphrase) ==>
                      forall k: nat :: k < old(Cleared(everything)) ==>
                        outs(k).1.writeOk && (k > 0 ==> outs(k).0.writeOk))
      ensures vaults == if ok then AfterLogout(old(vaults), vaultId, everything).value else old(vaults)
      ensures ok ==>
                if everything then vaults == []
                else if Truthy(vaultId) then forall v :: v in vaults <==> v in old(vaults) && v.id != vaultId.value
                else |old(vaults)| == 1 && vaults == []
      ensures ok && (store.useFileFallback || forall k: nat :: outs(k).0.keyringOk && outs(k).1.keyringOk) ==>
                forall v :: v in old(vaults) && v !in vaults ==> LoggedOut(store, v.id)
    {
      var rest := vaults;
      if everything {
        var k := 0;
        while k < |vaults|
          invariant k <= |vaults| && vaults == old(vaults) && store.Valid()
          invariant store.useFileFallback == old(store.useFileFallback)
          invariant k == 0 ==> store.file == old(store.file)
          invariant k > 0 && Truthy(store.filePassphrase) ==>
                      && store.FileAccounts(store.filePassphrase.value).Some?
                      && old(store.FileTakes(outs(0).0))
          invariant Truthy(store.filePassphrase) ==>
                      forall j: nat :: j < k ==> outs(j).1.writeOk && (j > 0 ==> outs(j).0.writeOk)
          invariant store.useFileFallback || (forall k: nat :: outs(k).0.keyringOk && outs(k).1.keyringOk) ==>
                      forall j :: 0 <= j < k ==> LoggedOut(store, vaults[j].id)
        {
          ok := ClearCredentials(store, vaults[k].id, outs(k));
          if !ok {
            return;
          }
          k := k + 1;
        }
        rest := [];
      } else if Truthy(vaultId) {
        ok := ClearCredentials(store, vaultId.value, outs(0));
        if !ok {
          return;
        }
        rest := Without(vaults, vaultId.value);
      } else if |vaults| == 1 {
        ok := ClearCredentials(store, vaults[0].id, outs(0));
        if !ok {
          return;
        }
        rest := [];
      } else {
        return false;
      }
      if saveOk {
        vaults := rest;
      }
      return saveOk;
    }
  }
}
