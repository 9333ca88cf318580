/**
 * The credential store of client-shared: the OS keyring, or an encrypted file once a passphrase is set,
 * and the two-part write of auth setup that may have to switch between them halfway.
 */
module CredentialStore {
  import opened Wrappers
  import opened Octets

  type Account = string
  type Accounts = map<Account, string>

  type Salt = s: Bytes | |s| == 16 witness seq(16, _ => 0)
  type Nonce = s: Bytes | |s| == 12 witness seq(12, _ => 0)

  // ----- the encrypted file -----

  /** scrypt, AES-256-GCM and JSON, left uninterpreted. */
  datatype Cipher = Cipher(
    derive: (string, Bytes) -> Bytes,
    encrypt: (Bytes, Bytes, Bytes) -> Bytes,
    authTag: (Bytes, Bytes, Bytes) -> Bytes,
    decrypt: (Bytes, Bytes, Bytes, Bytes) -> Option<Bytes>,
    stringify: Accounts -> Bytes,
    parse: Bytes -> Option<Accounts>)

  /** What is asked of them: a 16-byte tag, and that each is undone by its counterpart. */
  ghost predicate Lawful(c: Cipher) {
    && (forall key, iv, text :: |c.authTag(key, iv, text)| == 16)
    && (forall key, iv, text :: c.decrypt(key, iv, c.authTag(key, iv, text), c.encrypt(key, iv, text)) == Some(text))
    && (forall m :: c.parse(c.stringify(m)) == Some(m))
  }

  /** `getFileStore` after a successful read: the key is derived from the salt in front of the file. */
  function Opened(c: Cipher, raw: Bytes, passphrase: string): Option<Accounts> {
    var salt, iv := Subarray(raw, 0, 16), Subarray(raw, 16, 28);
    var tag, encrypted := Subarray(raw, 28, 44), if |raw| >= 44 then raw[44..] else [];
    var text := c.decrypt(c.derive(passphrase, salt), iv, tag, encrypted);
    if text == None then None else c.parse(text.value)
  }

  /** The bytes `saveFileStore` writes. */
  function Sealed(c: Cipher, m: Accounts, passphrase: string, salt: Salt, iv: Nonce): Bytes {
    var key, text := c.derive(passphrase, salt), c.stringify(m);
    salt + iv + c.authTag(key, iv, text) + c.encrypt(key, iv, text)
  }

  lemma SealedOpens(c: Cipher, m: Accounts, passphrase: string, salt: Salt, iv: Nonce)
    requires Lawful(c)
    ensures Opened(c, Sealed(c, m, passphrase, salt, iv), passphrase) == Some(m)
  {
    var key, text := c.derive(passphrase, salt), c.stringify(m);
    var raw := Sealed(c, m, passphrase, salt, iv);
    assert raw[0..16] == salt;
    assert raw[16..28] == iv;
    assert raw[28..44] == c.authTag(key, iv, text);
    assert raw[44..] == c.encrypt(key, iv, text);
  }

  /** The accounts in the file under a passphrase; an absent file holds none. */
  function AccountsIn(c: Cipher, file: Option<Bytes>, passphrase: string): Option<Accounts> {
    if file == None then Some(map[]) else Opened(c, file.value, passphrase)
  }

  // ----- the store -----

  /** The lazily imported keyring module; a failed import is remembered. */
  datatype Module = Unchecked | Unavailable | Available

  /** What the outside world does during one operation; a failed write leaves `leftover` as the file. */
  datatype Outside = Outside(
    importOk: bool, keyringOk: bool, readOk: bool, writeOk: bool, salt: Salt, iv: Nonce, leftover: Option<Bytes>)

  predicate Truthy(s: Option<string>) {
    s.Some? && s.value != ""
  }

  class Store {
    const cipher: Cipher
    var keyringModule: Module
    var keyring: Accounts
    var useFileFallback: bool
    var filePassphrase: Option<string>
    var file: Option<Bytes>

    ghost predicate Valid()
      reads this
    {
      Lawful(cipher) && (Truthy(filePassphrase) ==> useFileFallback)
    }

    /** The module's initial state, with VULTISIG_CREDENTIALS_PASSPHRASE as the passphrase. */
    constructor (cipher: Cipher, keyring: Accounts, file: Option<Bytes>, passphrase: Option<string>)
      requires Lawful(cipher)
      ensures Valid() && this.cipher == cipher && this.keyring == keyring && this.file == file
      ensures keyringModule == Unchecked && filePassphrase == passphrase && useFileFallback == Truthy(passphrase)
    {
      this.cipher, this.keyring, this.file, keyringModule := cipher, keyring, file, Unchecked;
      filePassphrase, useFileFallback := passphrase, Truthy(passphrase);
    }

    predicate UsesFile()
      reads this
    {
      useFileFallback && Truthy(filePassphrase)
    }

    /** The accounts in the file under a passphrase. */
    ghost function FileAccounts(passphrase: string): Option<Accounts>
      reads this
    {
      AccountsIn(cipher, file, passphrase)
    }

    /** The keyring module after it was asked for once more. */
    function Loaded(importOk: bool): Module
      reads this
    {
      if keyringModule == Unchecked && importOk then Available
      else if keyringModule == Unchecked then Unavailable
      else keyringModule
    }

    predicate KeyringTakes(out: Outside)
      reads this
    {
      Loaded(out.importOk) == Available && out.keyringOk
    }

    /** A file that is read has to open; one that cannot be read is overwritten. */
    ghost predicate FileTakes(out: Outside)
      requires filePassphrase.Some?
      reads this
    {
      out.writeOk && (out.readOk ==> FileAccounts(filePassphrase.value).Some?)
    }

    /** What a caller can read for an account, as long as reading itself succeeds. */
    ghost function Readback(account: Account): Option<string>
      reads this
    {
      if !useFileFallback then
        if keyringModule != Unavailable && account in keyring then Some(keyring[account]) else None
      else if !Truthy(filePassphrase) then None
      else
        var m := FileAccounts(filePassphrase.value);
        if m.Some? && account in m.value then Some(m.value[account]) else None
    }

    method GetKeyringModule(importOk: bool) returns (ok: bool)
      modifies this`keyringModule
      ensures keyringModule == old(Loaded(importOk))
      ensures ok <==> old(keyringModule) == Available || (old(keyringModule) == Unchecked && importOk)
    {
      if keyringModule == Unchecked {
        keyringModule := if importOk then Available else Unavailable;
      }
      ok := keyringModule == Available;
    }

    /** `getFileStore`: a file that cannot be read counts as an empty one. */
    method GetFileStore(passphrase: string, readOk: bool) returns (m: Option<Accounts>)
      ensures m == if !readOk then Some(map[]) else FileAccounts(passphrase)
    {
      if !readOk || file == None {
        return Some(map[]);
      }
      m := Opened(cipher, file.value, passphrase);
    }

    method SaveFileStore(m: Accounts, passphrase: string, out: Outside) returns (ok: bool)
      requires Lawful(cipher)
      modifies this`file
      ensures ok == out.writeOk
      ensures ok ==> FileAccounts(passphrase) == Some(m)
      ensures !ok ==> file == out.leftover
    {
      if !out.writeOk {
        file := out.leftover;
        return false;
      }
      file := Some(Sealed(cipher, m, passphrase, out.salt, out.iv));
      SealedOpens(cipher, m, passphrase, out.salt, out.iv);
      return true;
    }

    method SetFilePassphrase(passphrase: string)
      requires Valid()
      modifies this`filePassphrase, this`useFileFallback
      ensures Valid() && filePassphrase == Some(passphrase) && useFileFallback
    {
      filePassphrase, useFileFallback := Some(passphrase), true;
    }

    method Get(account: Account, out: Outside) returns (password: Option<string>)
      requires Valid()
      modifies this`keyringModule
      ensures Valid()
      ensures password == if old(if useFileFallback then out.readOk else KeyringTakes(out)) then old(Readback(account))
                          else None
      ensures keyringModule == if useFileFallback then old(keyringModule) else old(Loaded(out.importOk))
    {
      password := None;
      if !useFileFallback {
        var ok := GetKeyringModule(out.importOk);
        if ok && out.keyringOk && account in keyring {
          return Some(keyring[account]);
        }
      }
      if Truthy(filePassphrase) {
        var m := GetFileStore(filePassphrase.value, out.readOk);
        if m.Some? && account in m.value {
          return Some(m.value[account]);
        }
      }
    }

    /** The file behind a rewrite that failed: as it was when it could not be opened, else what the write left. */
    ghost function FileLeft(out: Outside): Option<Bytes>
      requires filePassphrase.Some?
      reads this
    {
      if out.readOk && FileAccounts(filePassphrase.value) == None then file else out.leftover
    }

    /** `writeToFileStore` */
    method WriteToFileStore(account: Account, password: string, out: Outside) returns (ok: bool)
      requires Valid() && Truthy(filePassphrase)
      modifies this`file
      ensures Valid()
      ensures ok ==> out.readOk || old(file) == None ==>
                old(FileAccounts(filePassphrase.value)).Some?
                && FileAccounts(filePassphrase.value)
                   == Some(old(FileAccounts(filePassphrase.value)).value[account := password])
      ensures ok ==> !out.readOk ==> FileAccounts(filePassphrase.value) == Some(map[account := password])
      ensures ok <==> old(FileTakes(out))
      ensures !ok ==> file == old(FileLeft(out))
    {
      var m := GetFileStore(filePassphrase.value, out.readOk);
      if m == None {
        return false;
      }
      ok := SaveFileStore(m.value[account := password], filePassphrase.value, out);
    }

    /**
     * `set`. A password is readable after it exactly when the store does not insist on a file without
     * having a passphrase for it; the other accounts are lost exactly when an existing file was unreadable.
     */
    method Set(account: Account, password: string, out: Outside) returns (ok: bool)
      requires Valid()
      modifies this`keyringModule, this`keyring, this`file
      ensures Valid()
      ensures ok ==> (Readback(account) == Some(password) <==> useFileFallback ==> Truthy(filePassphrase))
      ensures ok && !(UsesFile() && old(file).Some? && !out.readOk) ==>
                forall a :: a != account ==> Readback(a) == old(Readback(a))
      ensures ok && UsesFile() && !out.readOk ==> forall a :: a != account ==> Readback(a) == None
      ensures UsesFile() ==> keyring == old(keyring) && keyringModule == old(keyringModule)
      ensures ok <==> if UsesFile() then old(FileTakes(out)) else old(KeyringTakes(out))
      ensures ok && UsesFile() ==> FileAccounts(filePassphrase.value).Some?
      ensures !ok && UsesFile() ==> file == old(FileLeft(out))
      ensures !UsesFile() ==> file == old(file) && keyringModule == old(Loaded(out.importOk))
      ensures !UsesFile() ==> keyring == if ok then old(keyring)[account := password] else old(keyring)
    {
      if useFileFallback && Truthy(filePassphrase) {
        ok := WriteToFileStore(account, password, out);
        return;
      }
      var loaded := GetKeyringModule(out.importOk);
      if loaded && out.keyringOk {
        keyring := keyring[account := password];
        return true;
      }
      if Truthy(filePassphrase) {
        // The source would write to the file here, but a store with a passphrase has not tried the keyring.
        assert false;
      }
      return false;
    }

    /** `del`: a keyring that refuses is ignored, a file is rewritten without the account. */
    method Del(account: Account, out: Outside) returns (ok: bool)
      requires Valid()
      modifies this`keyringModule, this`keyring, this`file
      ensures Valid()
      ensures ok ==> (Readback(account) == None <==>
                        (useFileFallback || out.keyringOk || account !in old(keyring) || keyringModule == Unavailable))
      ensures ok && !(UsesFile() && old(file).Some? && !out.readOk) && keyringModule != Unavailable ==>
                forall a :: a != account ==> Readback(a) == old(Readback(a))
      ensures ok <==> (Truthy(filePassphrase) ==> old(FileTakes(out)))
      ensures ok && Truthy(filePassphrase) ==> FileAccounts(filePassphrase.value).Some?
      ensures keyring == if old(KeyringTakes(out)) then old(keyring) - {account} else old(keyring)
      ensures keyringModule == old(Loaded(out.importOk))
      ensures ok ==> forall a :: Readback(a) == None || Readback(a) == old(Readback(a))
    {
      var loaded := GetKeyringModule(out.importOk);
      if loaded && out.keyringOk {
        keyring := keyring - {account};
      }
      if Truthy(filePassphrase) {
        var m := GetFileStore(filePassphrase.value, out.readOk);
        if m == None {
          return false;
        }
        ok := SaveFileStore(m.value - {account}, filePassphrase.value, out);
        return;
      }
      return true;
    }

    // ----- credentials of a vault -----

    /** A decryption password has to be written, too. */
    predicate WritesBoth(isEncrypted: bool, decrypt: Option<string>) {
      isEncrypted && Truthy(decrypt)
    }

    /** The backend in use takes all that has to be written; what the first write left can be opened. */
    ghost predicate Takes(both: bool, outs: (Outside, Outside))
      reads this
    {
      if UsesFile() then FileTakes(outs.0) && (both ==> outs.1.writeOk)
      else KeyringTakes(outs.0) && (both ==> outs.1.keyringOk)
    }

    /** The file after an attempt that failed. */
    ghost function LeftBehind(outs: (Outside, Outside)): Option<Bytes>
      reads this
    {
      if !UsesFile() then file
      else if !FileTakes(outs.0) then FileLeft(outs.0)
      else outs.1.leftover
    }

    /** `writeVaultCredentials` */
    method WriteVaultCredentials(id: string, server: string, isEncrypted: bool, decrypt: Option<string>,
                                 outs: (Outside, Outside))
      returns (ok: bool)
      requires Valid()
      modifies this`keyringModule, this`keyring, this`file
      ensures Valid()
      ensures UsesFile() ==> keyring == old(keyring) && keyringModule == old(keyringModule)
      ensures !UsesFile() ==> file == old(file) && keyringModule == old(Loaded(outs.0.importOk))
      ensures ok <==> old(Takes(WritesBoth(isEncrypted, decrypt), outs))
      ensures !ok ==> file == old(LeftBehind(outs))
      ensures ok && UsesFile() && !LosesOthers(old(file).Some?, isEncrypted, decrypt, outs) ==>
                old(FileAccounts(filePassphrase.value)).Some?
      ensures ok ==> (BothReadable(id, server, isEncrypted, decrypt) <==>
                        (useFileFallback ==> Truthy(filePassphrase)) && !LosesFirst(isEncrypted, decrypt, outs.1))
      ensures ok && !LosesOthers(old(file).Some?, isEncrypted, decrypt, outs) ==>
                forall a :: a != ServerAccount(id) && a != DecryptAccount(id) ==> Readback(a) == old(Readback(a))
    {
      AccountsNeverCollide(id, id);
      ok := Set(ServerAccount(id), server, outs.0);
      if ok && isEncrypted && Truthy(decrypt) {
        ok := Set(DecryptAccount(id), decrypt.value, outs.1);
      }
    }

    /** Both passwords can be read back; a vault that is not encrypted has only the one. */
    ghost predicate BothReadable(id: string, server: string, isEncrypted: bool, decrypt: Option<string>)
      reads this
    {
      && Readback(ServerAccount(id)) == Some(server)
      && (isEncrypted && Truthy(decrypt) ==> Readback(DecryptAccount(id)) == decrypt)
    }

    /** The second write finds the file unreadable, and so drops what the first one wrote. */
    predicate LosesFirst(isEncrypted: bool, decrypt: Option<string>, second: Outside)
      reads this
    {
      UsesFile() && isEncrypted && Truthy(decrypt) && !second.readOk
    }

    predicate LosesOthers(hadFile: bool, isEncrypted: bool, decrypt: Option<string>, outs: (Outside, Outside))
      reads this
    {
      UsesFile() && ((hadFile && !outs.0.readOk) || LosesFirst(isEncrypted, decrypt, outs.1))
    }

    /**
     * `persistVaultCredentials`: one more attempt with a file passphrase, `resolved` from the environment
     * or a prompt. When it returns normally both passwords can be read back, unless the passphrase is empty
     * or the file was unreadable in between; a switch of the backend hides what only the keyring holds.
     */
    method PersistVaultCredentials(id: string, server: string, isEncrypted: bool, decrypt: Option<string>,
                                   resolved: Option<string>, outs: (Outside, Outside), again: (Outside, Outside))
      returns (ok: bool, switched: bool)
      requires Valid()
      modifies this
      ensures Valid()
      ensures ok ==> (BothReadable(id, server, isEncrypted, decrypt) <==>
                        (useFileFallback ==> Truthy(filePassphrase))
                        && !LosesFirst(isEncrypted, decrypt, if switched then again.1 else outs.1))
      ensures switched <==> !old(Takes(WritesBoth(isEncrypted, decrypt), outs))
      ensures !switched ==> ok
      ensures switched && resolved == None ==> !ok
      ensures switched && Truthy(resolved) ==>
                (ok <==>
                 && again.0.writeOk && (WritesBoth(isEncrypted, decrypt) ==> again.1.writeOk)
                 && (again.0.readOk ==> AccountsIn(cipher, old(LeftBehind(outs)), resolved.value).Some?))
      ensures switched && resolved == Some("") ==>
                (ok <==>
                 && again.0.keyringOk && (WritesBoth(isEncrypted, decrypt) ==> again.1.keyringOk)
                 && var m := if old(UsesFile()) then old(keyringModule) else old(Loaded(outs.0.importOk));
                    m == Available || (m == Unchecked && again.0.importOk))
      ensures switched && resolved.Some? ==> filePassphrase == resolved && useFileFallback
      ensures !switched ==> filePassphrase == old(filePassphrase) && useFileFallback == old(useFileFallback)
      ensures ok && !switched && !LosesOthers(old(file).Some?, isEncrypted, decrypt, outs) ==>
                forall a :: a != ServerAccount(id) && a != DecryptAccount(id) ==> Readback(a) == old(Readback(a))
      ensures ok && switched && !old(useFileFallback) && Truthy(resolved)
              && !LosesOthers(old(file).Some?, isEncrypted, decrypt, again) ==>
                old(FileAccounts(resolved.value)).Some?
                && forall a :: a != ServerAccount(id) && a != DecryptAccount(id) ==>
                     Readback(a) == Lookup(old(FileAccounts(resolved.value)).value, a)
    {
      switched := false;
      ok := WriteVaultCredentials(id, server, isEncrypted, decrypt, outs);
      if !ok {
        switched := true;
        if resolved == None {
          return;
        }
        SetFilePassphrase(resolved.value);
        ok := WriteVaultCredentials(id, server, isEncrypted, decrypt, again);
      }
    }
  }

  function Lookup(m: Accounts, account: Account): Option<string> {
    if account in m then Some(m[account]) else None
  }

  function ServerAccount(id: string): Account {
    id + "/server"
  }

  function DecryptAccount(id: string): Account {
    id + "/decrypt"
  }

  /** No two vaults share an account, whatever their ids contain, and a vault's two accounts differ. */
  lemma AccountsNeverCollide(a: string, b: string)
    ensures ServerAccount(a) != DecryptAccount(b)
    ensures ServerAccount(a) == ServerAccount(b) ==> a == b
    ensures DecryptAccount(a) == DecryptAccount(b) ==> a == b
  {
    assert ServerAccount(a)[|ServerAccount(a)| - 1] == 'r';
    assert DecryptAccount(b)[|DecryptAccount(b)| - 1] == 't';
    assert ServerAccount(a)[..|ServerAccount(a)| - 7] == a && ServerAccount(b)[..|ServerAccount(b)| - 7] == b;
    assert DecryptAccount(a)[..|DecryptAccount(a)| - 8] == a && DecryptAccount(b)[..|DecryptAccount(b)| - 8] == b;
  }

  // ----- calls on the file that overlap -----

  /** `writeToFileStore` or the file part of `del` between its read and its write: what it read, what it changes. */
  datatype Rewrite = Rewrite(seen: Accounts, account: Account, change: Option<string>)

  datatype SharedFile = SharedFile(accounts: Accounts, tasks: map<nat, Rewrite>)

  /** A call reads the file, or writes back what it read with its own account changed. */
  datatype FileEvent = Reads(task: nat, account: Account, change: Option<string>) | Writes(task: nat)

  function Changed(m: Accounts, account: Account, change: Option<string>): Accounts {
    if change.Some? then m[account := change.value] else m - {account}
  }

  function FileStep(w: SharedFile, event: FileEvent): SharedFile {
    match event
    case Reads(task, account, change) =>
      if task in w.tasks then w
      else w.(tasks := w.tasks[task := Rewrite(w.accounts, account, change)])
    case Writes(task) =>
      if task !in w.tasks then w
      else
        var r := w.tasks[task];
        SharedFile(Changed(r.seen, r.account, r.change), w.tasks - {task})
  }

  function FileRun(m: Accounts, events: seq<FileEvent>): SharedFile
    decreases |events|
  {
    if events == [] then SharedFile(m, map[])
    else FileStep(FileRun(m, events[..|events| - 1]), events[|events| - 1])
  }

  /** What the same changes make of the accounts, one after the other in the order of the writes. */
  function OneByOne(m: Accounts, events: seq<FileEvent>): Accounts
    decreases |events|
  {
    if events == [] then m
    else
      var init, last := events[..|events| - 1], events[|events| - 1];
      var tasks := FileRun(m, init).tasks;
      if last.Writes? && last.task in tasks then
        Changed(OneByOne(m, init), tasks[last.task].account, tasks[last.task].change)
      else OneByOne(m, init)
  }

  /** A call that writes has seen what the file holds for all other accounts. */
  predicate UpToDate(w: SharedFile, event: FileEvent) {
    event.Writes? && event.task in w.tasks ==>
      w.tasks[event.task].seen - {w.tasks[event.task].account} == w.accounts - {w.tasks[event.task].account}
  }

  lemma ChangedAgreesIff(m: Accounts, n: Accounts, account: Account, change: Option<string>)
    ensures Changed(m, account, change) == Changed(n, account, change) <==> m - {account} == n - {account}
  {
    assert Changed(m, account, change) - {account} == m - {account};
    assert Changed(n, account, change) - {account} == n - {account};
    if m - {account} == n - {account} {
      forall a | a != account ensures a in m <==> a in n {
        assert a in m <==> a in m - {account};
        assert a in n <==> a in n - {account};
      }
      forall a | a != account && a in m ensures m[a] == n[a] {
        assert (m - {account})[a] == (n - {account})[a];
      }
    }
  }

  lemma {:induction false} UpToDateRunsOneByOne(m: Accounts, events: seq<FileEvent>)
    requires forall n :: 0 <= n < |events| ==> UpToDate(FileRun(m, events[..n]), events[n])
    ensures FileRun(m, events).accounts == OneByOne(m, events)
    decreases |events|
  {
    if events != [] {
      var k := |events| - 1;
      var init, last := events[..k], events[k];
      assert forall n :: 0 <= n < k ==> init[..n] == events[..n];
      UpToDateRunsOneByOne(m, init);
      var w := FileRun(m, init);
      assert UpToDate(w, last);
      if last.Writes? && last.task in w.tasks {
        var r := w.tasks[last.task];
        ChangedAgreesIff(r.seen, w.accounts, r.account, r.change);
      }
    }
  }

  /**
   * However calls overlap: the file is at every moment what the changes make one by one, if and only if no call
   * writes after it has missed a change to another account.
   */
  lemma NoChangeIsLostIff(m: Accounts, events: seq<FileEvent>)
    ensures (forall n :: 0 <= n <= |events| ==> FileRun(m, events[..n]).accounts == OneByOne(m, events[..n]))
            <==> (forall n :: 0 <= n < |events| ==> UpToDate(FileRun(m, events[..n]), events[n]))
  {
    if forall n :: 0 <= n < |events| ==> UpToDate(FileRun(m, events[..n]), events[n]) {
      forall n | 0 <= n <= |events| ensures FileRun(m, events[..n]).accounts == OneByOne(m, events[..n]) {
        assert forall k :: 0 <= k < n ==> events[..n][..k] == events[..k];
        UpToDateRunsOneByOne(m, events[..n]);
      }
    }
    if forall n :: 0 <= n <= |events| ==> FileRun(m, events[..n]).accounts == OneByOne(m, events[..n]) {
      forall n | 0 <= n < |events| ensures UpToDate(FileRun(m, events[..n]), events[n]) {
        LosslessStepIsUpToDate(m, events, n);
      }
    }
  }

  lemma LosslessStepIsUpToDate(m: Accounts, events: seq<FileEvent>, n: nat)
    requires n < |events|
    requires FileRun(m, events[..n]).accounts == OneByOne(m, events[..n])
    requires FileRun(m, events[..n + 1]).accounts == OneByOne(m, events[..n + 1])
    ensures UpToDate(FileRun(m, events[..n]), events[n])
  {
    var w := FileRun(m, events[..n]);
    assert events[..n + 1][..n] == events[..n];
    if events[n].Writes? && events[n].task in w.tasks {
      var r := w.tasks[events[n].task];
      ChangedAgreesIff(r.seen, w.accounts, r.account, r.change);
    }
  }

  lemma FileRunNext(m: Accounts, events: seq<FileEvent>, n: nat)
    requires n < |events|
    ensures FileRun(m, events[..0]) == SharedFile(m, map[])
    ensures FileRun(m, events[..n + 1]) == FileStep(FileRun(m, events[..n]), events[n])
  {
    assert events[..n + 1][..n] == events[..n];
  }

  /** Two `set` calls that both read before either writes: the first password is lost unless it changes nothing. */
  lemma OverlappingSetsLoseTheFirstIff(m: Accounts, a: Account, p: string, b: Account, q: string)
    ensures var end := FileRun(m, [Reads(0, a, Some(p)), Reads(1, b, Some(q)), Writes(0), Writes(1)]);
            && end.tasks == map[] && b in end.accounts && end.accounts[b] == q
            && ((a in end.accounts && end.accounts[a] == p) <==> if a == b then p == q else a in m && m[a] == p)
  {
    var events := [Reads(0, a, Some(p)), Reads(1, b, Some(q)), Writes(0), Writes(1)];
    var first, second := Rewrite(m, a, Some(p)), Rewrite(m, b, Some(q));
    FileRunNext(m, events, 0);
    FileRunNext(m, events, 1);
    FileRunNext(m, events, 2);
    FileRunNext(m, events, 3);
    assert FileRun(m, events[..2]) == SharedFile(m, map[0 := first, 1 := second]);
    assert map[0 := first, 1 := second] - {0} == map[1 := second];
    assert FileRun(m, events[..3]) == SharedFile(m[a := p], map[1 := second]);
    assert map[1 := second] - {1} == map[];
    assert FileRun(m, events[..4]) == SharedFile(m[b := q], map[]) && events[..4] == events;
  }
}
