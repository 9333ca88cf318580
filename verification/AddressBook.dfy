/**
 * The address book: two lists in memory that every operation changes and writes to storage. Saved entries
 * are kept by chain and address, entries of other vaults by chain, address and vault.
 */
module AddressBook {
  import opened Wrappers

  datatype Source = Saved | Vault

  datatype Entry = Entry(
    chain: string, address: string, name: string, source: Source,
    vaultId: Option<string>, vaultName: Option<string>, dateAdded: int)

  datatype Book = Book(saved: seq<Entry>, vaults: seq<Entry>)

  datatype Stored = Stored(saved: Option<seq<Entry>>, vaults: Option<seq<Entry>>)

  datatype Key = Key(chain: string, address: string)

  datatype VaultKey = VaultKey(key: Key, vaultId: Option<string>)

  function KeyOf(e: Entry): Key {
    Key(e.chain, e.address)
  }

  function VaultKeyOf(e: Entry): VaultKey {
    VaultKey(KeyOf(e), e.vaultId)
  }

  // ----- the operations on the lists -----

  function Filter(s: seq<Entry>, keep: Entry -> bool): (t: seq<Entry>)
    ensures forall e :: e in t <==> e in s && keep(e)
  {
    if s == [] then []
    else (if keep(s[0]) then [s[0]] else []) + Filter(s[1..], keep)
  }

  /** The position of the first entry with a key, or the length. */
  function IndexOf<K(==)>(s: seq<Entry>, key: Entry -> K, k: K): (i: nat)
    ensures i <= |s| && (i < |s| ==> key(s[i]) == k)
    ensures forall j :: 0 <= j < i ==> key(s[j]) != k
  {
    if s == [] || key(s[0]) == k then 0 else 1 + IndexOf(s[1..], key, k)
  }

  function AddOne(book: Book, entry: Entry, now: int): Book {
    var stamped := entry.(dateAdded := now);
    if entry.source.Vault? then
      book.(vaults := Filter(book.vaults, e => VaultKeyOf(e) != VaultKeyOf(entry)) + [stamped])
    else if IndexOf(book.saved, KeyOf, KeyOf(entry)) == |book.saved| then
      book.(saved := book.saved + [stamped])
    else book
  }

  function AddAll(book: Book, entries: seq<Entry>, clock: nat -> int): Book
    decreases |entries|
  {
    if entries == [] then book
    else
      var n := |entries| - 1;
      AddOne(AddAll(book, entries[..n], clock), entries[n], clock(n))
  }

  function RemoveOne(book: Book, key: Key): Book {
    Book(Filter(book.saved, e => KeyOf(e) != key), Filter(book.vaults, e => KeyOf(e) != key))
  }

  function RemoveAll(book: Book, keys: seq<Key>): Book
    decreases |keys|
  {
    if keys == [] then book else RemoveOne(RemoveAll(book, keys[..|keys| - 1]), keys[|keys| - 1])
  }

  function Renamed(s: seq<Entry>, key: Key, name: string): seq<Entry> {
    var i := IndexOf(s, KeyOf, key);
    if i < |s| then s[i := s[i].(name := name)] else s
  }

  function Update(book: Book, key: Key, name: string): Book {
    if IndexOf(book.saved, KeyOf, key) < |book.saved| then book.(saved := Renamed(book.saved, key, name))
    else book.(vaults := Renamed(book.vaults, key, name))
  }

  // ----- the two maps they stand for -----

  predicate Distinct<K(==)>(s: seq<Entry>, key: Entry -> K) {
    forall i, j :: 0 <= i < j < |s| ==> key(s[i]) != key(s[j])
  }

  /** The entry listed for a key; a list of distinct keys stands for the map that this function is. */
  function Find<K(==)>(s: seq<Entry>, key: Entry -> K, k: K): (e: Option<Entry>)
    ensures e.Some? ==> e.value in s && key(e.value) == k
    ensures e == None ==> forall x :: x in s ==> key(x) != k
  {
    var i := IndexOf(s, key, k);
    if i < |s| then Some(s[i]) else None
  }

  predicate NoDuplicates(book: Book) {
    Distinct(book.saved, KeyOf) && Distinct(book.vaults, VaultKeyOf)
  }

  function SavedAt(book: Book, key: Key): Option<Entry> {
    Find(book.saved, KeyOf, key)
  }

  function VaultAt(book: Book, key: VaultKey): Option<Entry> {
    Find(book.vaults, VaultKeyOf, key)
  }

  /** In a list of distinct keys whatever is listed is found. */
  lemma ListedIsFound<K>(s: seq<Entry>, key: Entry -> K, e: Entry)
    requires Distinct(s, key) && e in s
    ensures Find(s, key, key(e)) == Some(e)
  {
    var i :| 0 <= i < |s| && s[i] == e;
    var j := IndexOf(s, key, key(e));
    assert j == i;
  }

  lemma {:induction false} FilterIsDistinct<K>(s: seq<Entry>, keep: Entry -> bool, key: Entry -> K)
    requires Distinct(s, key)
    ensures Distinct(Filter(s, keep), key)
    decreases |s|
  {
    if s != [] {
      var t := Filter(s[1..], keep);
      FilterIsDistinct(s[1..], keep, key);
      forall i | 0 <= i < |t| ensures key(t[i]) != key(s[0]) {
        assert t[i] in t;
        assert t[i] in s[1..];
      }
    }
  }

  /** Filtering removes from the map what the filter refuses, and nothing else. */
  lemma FilterFinds<K>(s: seq<Entry>, keep: Entry -> bool, key: Entry -> K, k: K)
    requires Distinct(s, key)
    ensures Distinct(Filter(s, keep), key)
    ensures Find(Filter(s, keep), key, k) ==
            if Find(s, key, k).Some? && keep(Find(s, key, k).value) then Find(s, key, k) else None
  {
    FilterIsDistinct(s, keep, key);
    var found := Find(s, key, k);
    if found.Some? && keep(found.value) {
      ListedIsFound(Filter(s, keep), key, found.value);
    }
    var left := Find(Filter(s, keep), key, k);
    if left.Some? {
      ListedIsFound(s, key, left.value);
    }
  }

  /** Appending an entry of a new key adds it to the map. */
  lemma AppendFinds<K>(s: seq<Entry>, key: Entry -> K, e: Entry, k: K)
    requires Distinct(s, key) && Find(s, key, key(e)) == None
    ensures Distinct(s + [e], key)
    ensures Find(s + [e], key, k) == if k == key(e) then Some(e) else Find(s, key, k)
  {
    forall i | 0 <= i < |s| ensures key(s[i]) != key(e) {
      assert s[i] in s;
    }
    if k == key(e) {
      assert e in s + [e];
      ListedIsFound(s + [e], key, e);
    } else if Find(s, key, k).Some? {
      assert Find(s, key, k).value in s + [e];
      ListedIsFound(s + [e], key, Find(s, key, k).value);
    } else {
      assert forall x :: x in s + [e] ==> key(x) != k;
    }
  }

  /** Exchanging an entry for one of the same key changes the map there. */
  lemma ReplaceFinds<K>(s: seq<Entry>, key: Entry -> K, i: nat, e: Entry, k: K)
    requires Distinct(s, key) && i < |s| && key(e) == key(s[i])
    ensures Distinct(s[i := e], key)
    ensures Find(s[i := e], key, k) == if k == key(e) then Some(e) else Find(s, key, k)
  {
    var t := s[i := e];
    if k == key(e) {
      assert t[i] in t;
      ListedIsFound(t, key, e);
    } else if Find(s, key, k).Some? {
      var j := IndexOf(s, key, k);
      assert t[j] in t;
      ListedIsFound(t, key, s[j]);
    } else {
      forall x | x in t ensures key(x) != k {
        var j :| 0 <= j < |t| && t[j] == x;
        assert s[j] in s;
      }
    }
  }

  lemma AddOneRefines(book: Book, entry: Entry, now: int, key: Key, vaultKey: VaultKey)
    requires NoDuplicates(book)
    ensures NoDuplicates(AddOne(book, entry, now))
    ensures SavedAt(AddOne(book, entry, now), key) ==
            if SavedAt(book, key) == None && entry.source.Saved? && KeyOf(entry) == key
            then Some(entry.(dateAdded := now)) else SavedAt(book, key)
    ensures VaultAt(AddOne(book, entry, now), vaultKey) ==
            if entry.source.Vault? && VaultKeyOf(entry) == vaultKey
            then Some(entry.(dateAdded := now)) else VaultAt(book, vaultKey)
  {
    var stamped := entry.(dateAdded := now);
    if entry.source.Vault? {
      var keep := (e: Entry) => VaultKeyOf(e) != VaultKeyOf(entry);
      FilterFinds(book.vaults, keep, VaultKeyOf, VaultKeyOf(entry));
      FilterFinds(book.vaults, keep, VaultKeyOf, vaultKey);
      AppendFinds(Filter(book.vaults, keep), VaultKeyOf, stamped, vaultKey);
      assert AddOne(book, entry, now).vaults == Filter(book.vaults, keep) + [stamped];
    } else if IndexOf(book.saved, KeyOf, KeyOf(entry)) == |book.saved| {
      AppendFinds(book.saved, KeyOf, stamped, key);
    }
  }

  /** The first of the added saved entries of a key, with the time it was added. */
  function FirstSaved(entries: seq<Entry>, clock: nat -> int, key: Key): Option<Entry>
    decreases |entries|
  {
    if entries == [] then None
    else
      var n := |entries| - 1;
      var earlier := FirstSaved(entries[..n], clock, key);
      if earlier.Some? then earlier
      else if entries[n].source.Saved? && KeyOf(entries[n]) == key then Some(entries[n].(dateAdded := clock(n)))
      else None
  }

  /** The last of the added vault entries of a key. */
  function LastVault(entries: seq<Entry>, clock: nat -> int, key: VaultKey): Option<Entry>
    decreases |entries|
  {
    if entries == [] then None
    else
      var n := |entries| - 1;
      if entries[n].source.Vault? && VaultKeyOf(entries[n]) == key then Some(entries[n].(dateAdded := clock(n)))
      else LastVault(entries[..n], clock, key)
  }

  /** Adding keeps the first writer of a saved key and the last writer of a vault key. */
  lemma {:induction false} AddRefines(book: Book, entries: seq<Entry>, clock: nat -> int, key: Key, vaultKey: VaultKey)
    requires NoDuplicates(book)
    ensures NoDuplicates(AddAll(book, entries, clock))
    ensures SavedAt(AddAll(book, entries, clock), key) ==
            if SavedAt(book, key).Some? then SavedAt(book, key) else FirstSaved(entries, clock, key)
    ensures VaultAt(AddAll(book, entries, clock), vaultKey) ==
            if LastVault(entries, clock, vaultKey).Some? then LastVault(entries, clock, vaultKey)
            else VaultAt(book, vaultKey)
    decreases |entries|
  {
    if entries != [] {
      var n := |entries| - 1;
      AddRefines(book, entries[..n], clock, key, vaultKey);
      AddOneRefines(AddAll(book, entries[..n], clock), entries[n], clock(n), key, vaultKey);
    }
  }

  lemma RemoveOneRefines(book: Book, gone: Key, key: Key, vaultKey: VaultKey)
    requires NoDuplicates(book)
    ensures NoDuplicates(RemoveOne(book, gone))
    ensures SavedAt(RemoveOne(book, gone), key) == if key == gone then None else SavedAt(book, key)
    ensures VaultAt(RemoveOne(book, gone), vaultKey) == if vaultKey.key == gone then None else VaultAt(book, vaultKey)
  {
    var keep := (e: Entry) => KeyOf(e) != gone;
    FilterFinds(book.saved, keep, KeyOf, key);
    FilterFinds(book.vaults, keep, VaultKeyOf, vaultKey);
    assert RemoveOne(book, gone) == Book(Filter(book.saved, keep), Filter(book.vaults, keep));
  }

  /** Removing addresses takes them out of both maps, there for every vault. */
  lemma {:induction false} RemoveRefines(book: Book, keys: seq<Key>, key: Key, vaultKey: VaultKey)
    requires NoDuplicates(book)
    ensures NoDuplicates(RemoveAll(book, keys))
    ensures SavedAt(RemoveAll(book, keys), key) == if key in keys then None else SavedAt(book, key)
    ensures VaultAt(RemoveAll(book, keys), vaultKey) == if vaultKey.key in keys then None else VaultAt(book, vaultKey)
    decreases |keys|
  {
    if keys != [] {
      var init, last := keys[..|keys| - 1], keys[|keys| - 1];
      RemoveRefines(book, init, key, vaultKey);
      RemoveOneRefines(RemoveAll(book, init), last, key, vaultKey);
      assert forall k :: k in keys <==> k in init || k == last;
    }
  }

  function Named(e: Option<Entry>, name: string): Option<Entry> {
    if e.Some? then Some(e.value.(name := name)) else None
  }

  /** The vault key that a rename falls back to: that of the first listed vault entry of the address. */
  function FallbackKey(book: Book, key: Key): Option<VaultKey> {
    var i := IndexOf(book.vaults, KeyOf, key);
    if SavedAt(book, key) == None && i < |book.vaults| then Some(VaultKeyOf(book.vaults[i])) else None
  }

  /** A rename changes one name: the saved entry's, or the fallback's, or none; the rest of both maps stays. */
  lemma UpdateRefines(book: Book, renamed: Key, name: string, key: Key, vaultKey: VaultKey)
    requires NoDuplicates(book)
    ensures NoDuplicates(Update(book, renamed, name))
    ensures SavedAt(Update(book, renamed, name), key) ==
            if key == renamed then Named(SavedAt(book, key), name) else SavedAt(book, key)
    ensures VaultAt(Update(book, renamed, name), vaultKey) ==
            if FallbackKey(book, renamed) == Some(vaultKey) then Named(VaultAt(book, vaultKey), name)
            else VaultAt(book, vaultKey)
    ensures FallbackKey(book, renamed) == None <==>
            SavedAt(book, renamed).Some? || forall e :: e in book.vaults ==> KeyOf(e) != renamed
  {
    var i, j := IndexOf(book.saved, KeyOf, renamed), IndexOf(book.vaults, KeyOf, renamed);
    if i < |book.saved| {
      ReplaceFinds(book.saved, KeyOf, i, book.saved[i].(name := name), key);
    } else if j < |book.vaults| {
      assert book.vaults[j] in book.vaults;
      ListedIsFound(book.vaults, VaultKeyOf, book.vaults[j]);
      ReplaceFinds(book.vaults, VaultKeyOf, j, book.vaults[j].(name := name), vaultKey);
    }
  }

  // ----- the manager -----

  /** What a fresh `init` makes of the storage. */
  function Loaded(stored: Stored): Book {
    Book(if stored.saved.Some? then stored.saved.value else [], if stored.vaults.Some? then stored.vaults.value else [])
  }

  function StoreSaved(stored: Stored, book: Book): Stored {
    stored.(saved := Some(book.saved))
  }

  function StoreVaults(stored: Stored, book: Book): Stored {
    stored.(vaults := Some(book.vaults))
  }

  /** A storage call returns, or throws; a call that throws may have taken effect all the same. */
  datatype Outcome = Done | Failed | FailedLate

  /** Both lists are written one after the other, the second one only behind a call that returned. */
  function Persisted(stored: Stored, book: Book, first: Outcome, second: Outcome): Stored {
    if first.Failed? then stored
    else if first.FailedLate? || second.Failed? then StoreSaved(stored, book)
    else StoreVaults(StoreSaved(stored, book), book)
  }

  function Removed(stored: Stored, first: Outcome, second: Outcome): Stored {
    if first.Failed? then stored
    else if first.FailedLate? || second.Failed? then stored.(saved := None)
    else Stored(None, None)
  }

  /** Each method takes the outcomes of its storage calls; a call that throws ends the method. */
  class AddressBookManager {
    var saved: seq<Entry>
    var vaults: seq<Entry>
    var stored: Stored

    ghost function Memory(): Book
      reads this
    {
      Book(saved, vaults)
    }

    constructor (stored: Stored)
      ensures this.stored == stored && Memory() == Book([], [])
    {
      this.stored, saved, vaults := stored, [], [];
    }

    method Init(readsOk: bool) returns (ok: bool)
      modifies this`saved, this`vaults
      ensures ok == readsOk && Memory() == if ok then Loaded(stored) else old(Memory())
    {
      if readsOk {
        saved := if stored.saved.Some? then stored.saved.value else [];
        vaults := if stored.vaults.Some? then stored.vaults.value else [];
      }
      return readsOk;
    }

    /** `storage.set` of the saved entries. */
    method SetSavedEntries(outcome: Outcome) returns (ok: bool)
      modifies this`stored
      ensures ok == outcome.Done?
      ensures stored == if outcome.Failed? then old(stored) else StoreSaved(old(stored), Memory())
    {
      if !outcome.Failed? {
        stored := stored.(saved := Some(saved));
      }
      return outcome.Done?;
    }

    /** `storage.set` of the vault entries. */
    method SetVaultEntries(outcome: Outcome) returns (ok: bool)
      modifies this`stored
      ensures ok == outcome.Done?
      ensures stored == if outcome.Failed? then old(stored) else StoreVaults(old(stored), Memory())
    {
      if !outcome.Failed? {
        stored := stored.(vaults := Some(vaults));
      }
      return outcome.Done?;
    }

    /** Both lists are written, first the saved entries. */
    method Persist(first: Outcome, second: Outcome) returns (ok: bool)
      modifies this`stored
      ensures ok == (first.Done? && second.Done?)
      ensures stored == Persisted(old(stored), Memory(), first, second)
      ensures ok ==> Loaded(stored) == Memory()
      ensures stored.saved == if first == Failed then old(stored).saved else Some(saved)
      ensures stored.vaults == if first != Done || second == Failed then old(stored).vaults else Some(vaults)
    {
      ok := SetSavedEntries(first);
      if ok {
        ok := SetVaultEntries(second);
      }
    }

    method AddAddressBookEntry(entries: seq<Entry>, clock: nat -> int, first: Outcome, second: Outcome)
      returns (ok: bool)
      modifies this
      ensures ok == (first.Done? && second.Done?)
      ensures Memory() == AddAll(old(Memory()), entries, clock)
      ensures ok ==> Loaded(stored) == Memory()
      ensures stored == Persisted(old(stored), Memory(), first, second)
    {
      for k := 0 to |entries|
        invariant Memory() == AddAll(old(Memory()), entries[..k], clock) && stored == old(stored)
      {
        var entry := entries[k];
        assert entries[..k + 1][..k] == entries[..k];
        if entry.source.Vault? {
          vaults := Filter(vaults, e => VaultKeyOf(e) != VaultKeyOf(entry));
          vaults := vaults + [entry.(dateAdded := clock(k))];
        } else {
          var existingIndex := IndexOf(saved, KeyOf, KeyOf(entry));
          if existingIndex == |saved| {
            saved := saved + [entry.(dateAdded := clock(k))];
          }
        }
      }
      assert entries[..|entries|] == entries;
      ok := Persist(first, second);
    }

    method RemoveAddressBookEntry(keys: seq<Key>, first: Outcome, second: Outcome) returns (ok: bool)
      modifies this
      ensures ok == (first.Done? && second.Done?)
      ensures Memory() == RemoveAll(old(Memory()), keys)
      ensures ok ==> Loaded(stored) == Memory()
      ensures stored == Persisted(old(stored), Memory(), first, second)
    {
      for k := 0 to |keys|
        invariant Memory() == RemoveAll(old(Memory()), keys[..k]) && stored == old(stored)
      {
        var key := keys[k];
        assert keys[..k + 1][..k] == keys[..k];
        saved := Filter(saved, e => KeyOf(e) != key);
        vaults := Filter(vaults, e => KeyOf(e) != key);
      }
      assert keys[..|keys|] == keys;
      ok := Persist(first, second);
    }

    /** Only the list that changed is written, so the other one has to be in storage already. */
    method UpdateAddressBookEntry(key: Key, name: string, write: Outcome) returns (ok: bool)
      modifies this
      ensures Memory() == Update(old(Memory()), key, name)
      ensures ok && Loaded(old(stored)) == old(Memory()) ==> Loaded(stored) == Memory()
      ensures ok == (write.Done? || (SavedAt(old(Memory()), key) == None && FallbackKey(old(Memory()), key) == None))
      ensures write.Failed? ==> stored == old(stored)
      ensures !write.Failed? && Loaded(old(stored)) == old(Memory()) ==> Loaded(stored) == Memory()
    {
      var i := IndexOf(saved, KeyOf, key);
      if i < |saved| {
        saved := saved[i := saved[i].(name := name)];
        ok := SetSavedEntries(write);
        return;
      }
      var j := IndexOf(vaults, KeyOf, key);
      if j < |vaults| {
        vaults := vaults[j := vaults[j].(name := name)];
        ok := SetVaultEntries(write);
        return;
      }
      return true;
    }

    method Clear(first: Outcome, second: Outcome) returns (ok: bool)
      modifies this
      ensures ok == (first.Done? && second.Done?)
      ensures Memory() == Book([], [])
      ensures ok ==> stored == Stored(None, None) && Loaded(stored) == Memory()
      ensures stored == Removed(old(stored), first, second)
      ensures stored.saved == if first == Failed then old(stored).saved else None
      ensures stored.vaults == if first != Done || second == Failed then old(stored).vaults else None
    {
      saved, vaults := [], [];
      if !first.Failed? {
        stored := stored.(saved := None);
      }
      if !first.Done? {
        return false;
      }
      if !second.Failed? {
        stored := stored.(vaults := None);
      }
      return second.Done?;
    }
  }

  // ----- calls that overlap -----

  /** A storage call that a suspended operation has yet to make; a `set` writes the list it then finds. */
  datatype Write = SetSaved | SetVaults | RemoveSaved | RemoveVaults

  datatype Operation =
    | Add(entries: seq<Entry>, clock: nat -> int)
    | Remove(keys: seq<Key>)
    | Rename(key: Key, name: string)
    | ClearAll

  datatype World = World(memory: Book, stored: Stored, tasks: map<nat, seq<Write>>)

  /** An operation begins, or its next storage call returns, or that call throws and ends the operation. */
  datatype Event =
    | Begin(task: nat, op: Operation)
    | Continue(task: nat)
    | Fail(task: nat, late: bool)

  function Changed(book: Book, op: Operation): Book {
    match op
    case Add(entries, clock) => AddAll(book, entries, clock)
    case Remove(keys) => RemoveAll(book, keys)
    case Rename(key, name) => Update(book, key, name)
    case ClearAll => Book([], [])
  }

  /** The storage calls an operation makes, from the book it finds. */
  function Writes(book: Book, op: Operation): seq<Write> {
    match op
    case Add(_, _) => [SetSaved, SetVaults]
    case Remove(_) => [SetSaved, SetVaults]
    case Rename(key, _) =>
      if SavedAt(book, key).Some? then [SetSaved]
      else if FallbackKey(book, key).Some? then [SetVaults]
      else []
    case ClearAll => [RemoveSaved, RemoveVaults]
  }

  function Written(w: World, write: Write): Stored {
    match write
    case SetSaved => StoreSaved(w.stored, w.memory)
    case SetVaults => StoreVaults(w.stored, w.memory)
    case RemoveSaved => w.stored.(saved := None)
    case RemoveVaults => w.stored.(vaults := None)
  }

  function Step(w: World, event: Event): World {
    match event
    case Begin(task, op) =>
      if task in w.tasks then w
      else World(Changed(w.memory, op), w.stored, w.tasks[task := Writes(w.memory, op)])
    case Continue(task) =>
      if task !in w.tasks || w.tasks[task] == [] then w
      else World(w.memory, Written(w, w.tasks[task][0]), w.tasks[task := w.tasks[task][1..]])
    case Fail(task, late) =>
      if task !in w.tasks || w.tasks[task] == [] then w
      else World(w.memory, if late then Written(w, w.tasks[task][0]) else w.stored, w.tasks[task := []])
  }

  function Run(w: World, events: seq<Event>): World
    decreases |events|
  {
    if events == [] then w else Step(Run(w, events[..|events| - 1]), events[|events| - 1])
  }

  predicate AllDone(w: World) {
    forall t :: t in w.tasks ==> w.tasks[t] == []
  }

  /** One of the storage calls brings the stored saved entries, or the stored vault entries, up to date. */
  predicate WritesSaved(writes: seq<Write>) {
    SetSaved in writes || RemoveSaved in writes
  }

  predicate WritesVaults(writes: seq<Write>) {
    SetVaults in writes || RemoveVaults in writes
  }

  predicate Clearing(writes: seq<Write>) {
    RemoveSaved in writes || RemoveVaults in writes
  }

  /**
   * The storage lags behind the memory only where some operation that does not fail has yet to write, and the
   * memory stays empty while a `clear` has yet to remove something.
   */
  ghost predicate WillBeWritten(w: World, failing: set<nat>) {
    && (Loaded(w.stored).saved == w.memory.saved
        || exists t :: t in w.tasks && t !in failing && WritesSaved(w.tasks[t]))
    && (Loaded(w.stored).vaults == w.memory.vaults
        || exists t :: t in w.tasks && t !in failing && WritesVaults(w.tasks[t]))
    && ((exists t :: t in w.tasks && Clearing(w.tasks[t])) ==> w.memory == Book([], []))
  }

  /** Storage calls throw for no others than these. */
  predicate FailOnly(events: seq<Event>, failing: set<nat>) {
    forall i :: 0 <= i < |events| && events[i].Fail? ==> events[i].task in failing
  }

  /** No call begins inside a `clear`. */
  predicate BeginsOutsideClear(w: World, event: Event) {
    event.Begin? ==> forall t :: t in w.tasks ==> !Clearing(w.tasks[t])
  }

  ghost predicate BeginOutsideClear(w: World, events: seq<Event>)
    decreases |events|
  {
    events == [] ||
    (var init := events[..|events| - 1];
     BeginOutsideClear(w, init) && BeginsOutsideClear(Run(w, init), events[|events| - 1]))
  }

  /** A rename that writes nothing changes nothing, and otherwise changes only the list that it writes. */
  lemma RenameWritesWhatChanged(book: Book, key: Key, name: string)
    ensures SetSaved in Writes(book, Rename(key, name)) || Update(book, key, name).saved == book.saved
    ensures SetVaults in Writes(book, Rename(key, name)) || Update(book, key, name).vaults == book.vaults
  {
  }

  lemma BeginKeepsWillBeWritten(w: World, task: nat, op: Operation, failing: set<nat>)
    requires WillBeWritten(w, failing) && BeginsOutsideClear(w, Begin(task, op)) && task !in w.tasks
    requires failing <= w.tasks.Keys
    ensures WillBeWritten(Step(w, Begin(task, op)), failing)
  {
    var w' := Step(w, Begin(task, op));
    var writes := Writes(w.memory, op);
    assert w'.tasks[task] == writes && forall t :: t in w.tasks ==> w'.tasks[t] == w.tasks[t];
    match op
    case Add(_, _) => assert writes[0] == SetSaved && writes[1] == SetVaults;
    case Remove(_) => assert writes[0] == SetSaved && writes[1] == SetVaults;
    case Rename(key, name) => RenameWritesWhatChanged(w.memory, key, name);
    case ClearAll => assert writes[0] == RemoveSaved && writes[1] == RemoveVaults;
  }

  /** A storage call that takes effect, returning or throwing. */
  lemma WriteKeepsWillBeWritten(w: World, task: nat, failing: set<nat>, rest: seq<Write>)
    requires WillBeWritten(w, failing) && task in w.tasks && w.tasks[task] != []
    requires rest == w.tasks[task][1..] || (rest == [] && task in failing)
    ensures WillBeWritten(World(w.memory, Written(w, w.tasks[task][0]), w.tasks[task := rest]), failing)
  {
    var w', writes := World(w.memory, Written(w, w.tasks[task][0]), w.tasks[task := rest]), w.tasks[task];
    assert writes == [writes[0]] + writes[1..];
    assert forall x :: x in writes <==> x == writes[0] || x in writes[1..];
    assert w'.tasks[task] == rest;
    assert forall t :: t in w.tasks && t != task ==> w'.tasks[t] == w.tasks[t];
    assert Clearing(rest) ==> Clearing(writes);
    assert writes[0].RemoveSaved? || writes[0].RemoveVaults? ==> Clearing(writes);
  }

  lemma FailKeepsWillBeWritten(w: World, task: nat, late: bool, failing: set<nat>)
    requires WillBeWritten(w, failing) && task in failing
    ensures WillBeWritten(Step(w, Fail(task, late)), failing)
  {
    if task in w.tasks && w.tasks[task] != [] {
      if late {
        WriteKeepsWillBeWritten(w, task, failing, []);
      } else {
        assert forall t :: t in w.tasks && t != task ==> Step(w, Fail(task, late)).tasks[t] == w.tasks[t];
      }
    }
  }

  lemma StepKeepsWillBeWritten(w: World, event: Event, failing: set<nat>)
    requires WillBeWritten(w, failing) && failing <= w.tasks.Keys && BeginsOutsideClear(w, event)
    requires event.Fail? ==> event.task in failing
    ensures WillBeWritten(Step(w, event), failing) && failing <= Step(w, event).tasks.Keys
  {
    match event
    case Begin(task, op) =>
      if task !in w.tasks {
        BeginKeepsWillBeWritten(w, task, op, failing);
      }
    case Continue(task) =>
      if task in w.tasks && w.tasks[task] != [] {
        WriteKeepsWillBeWritten(w, task, failing, w.tasks[task][1..]);
      }
    case Fail(task, late) => FailKeepsWillBeWritten(w, task, late, failing);
  }

  lemma {:induction false} RunKeepsWillBeWritten(w: World, events: seq<Event>, failing: set<nat>)
    requires WillBeWritten(w, failing) && failing <= w.tasks.Keys
    requires BeginOutsideClear(w, events) && FailOnly(events, failing)
    ensures WillBeWritten(Run(w, events), failing) && failing <= Run(w, events).tasks.Keys
    decreases |events|
  {
    if events != [] {
      var init := events[..|events| - 1];
      RunKeepsWillBeWritten(w, init, failing);
      StepKeepsWillBeWritten(Run(w, init), events[|events| - 1], failing);
    }
  }

  /**
   * However calls overlap, as long as none begins inside a `clear` and no storage call throws: once all have
   * completed a fresh `init` finds what is in memory.
   */
  lemma OverlappingCallsEndPersisted(w: World, events: seq<Event>)
    requires WillBeWritten(w, {}) && BeginOutsideClear(w, events) && FailOnly(events, {})
    ensures WillBeWritten(Run(w, events), {})
    ensures AllDone(Run(w, events)) ==> Loaded(Run(w, events).stored) == Run(w, events).memory
  {
    RunKeepsWillBeWritten(w, events, {});
  }

  /**
   * Whatever has failed before, and whatever calls under way have yet to fail: once an add, a removal or a `clear`
   * that begins now and all later calls have completed, a fresh `init` finds what is in memory.
   */
  lemma NextCallRepairsStorage(w: World, task: nat, op: Operation, later: seq<Event>)
    requires task !in w.tasks && !op.Rename? && BeginsOutsideClear(w, Begin(task, op))
    requires var begun := Step(w, Begin(task, op)); BeginOutsideClear(begun, later) && FailOnly(later, w.tasks.Keys)
    ensures var end := Run(Step(w, Begin(task, op)), later); AllDone(end) ==> Loaded(end.stored) == end.memory
  {
    var begun := Step(w, Begin(task, op));
    var writes := Writes(w.memory, op);
    assert begun.tasks[task] == writes && forall t :: t in w.tasks ==> begun.tasks[t] == w.tasks[t];
    assert WritesSaved(writes) by { assert writes[0].SetSaved? || writes[0].RemoveSaved?; }
    assert WritesVaults(writes) by { assert writes[1].SetVaults? || writes[1].RemoveVaults?; }
    RunKeepsWillBeWritten(begun, later, w.tasks.Keys);
  }

  /** Runs without `clear` are among them. */
  lemma {:induction false} WithoutClearNothingClears(w: World, events: seq<Event>)
    requires forall t :: t in w.tasks ==> !Clearing(w.tasks[t])
    requires forall i :: 0 <= i < |events| && events[i].Begin? ==> !events[i].op.ClearAll?
    ensures BeginOutsideClear(w, events) && forall t :: t in Run(w, events).tasks ==> !Clearing(Run(w, events).tasks[t])
    decreases |events|
  {
    if events != [] {
      var before, event := Run(w, events[..|events| - 1]), events[|events| - 1];
      WithoutClearNothingClears(w, events[..|events| - 1]);
      if event.Continue? && event.task in before.tasks && before.tasks[event.task] != [] {
        var writes := before.tasks[event.task];
        assert forall x :: x in writes[1..] ==> x in writes;
      }
    }
  }

  /** A late removal of `clear` leaves the storage as the memory is exactly if no vault entry came in meanwhile. */
  lemma LateRemovalKeepsStepIff(w: World, task: nat)
    requires task in w.tasks && w.tasks[task] == [RemoveVaults] && Loaded(w.stored) == w.memory
    ensures var after := Step(w, Continue(task));
            after.tasks[task] == [] && (Loaded(after.stored) == after.memory <==> w.memory.vaults == [])
  {
    assert Step(w, Continue(task)).tasks[task] == [RemoveVaults][1..];
  }

  /** A vault entry that is added before `clear` makes its second removal ends up in memory only. */
  lemma ClearIsOvertaken(entry: Entry, clock: nat -> int)
    requires entry.source.Vault?
    ensures var start := Run(World(Book([], []), Stored(None, None), map[]), [Begin(0, ClearAll), Continue(0)]);
            var added := Run(start, [Begin(1, Add([entry], clock)), Continue(1), Continue(1)]);
            var end := Step(added, Continue(0));
            && AllDone(end) && end.memory == Book([], [entry.(dateAdded := clock(0))])
            && Loaded(end.stored) == Book([], []) && Loaded(end.stored) != end.memory
  {
    AddCompletesInsideClear(entry, clock);
  }

  /** The entry is in both while `clear`, which waited for its first removal, has yet to make its second. */
  lemma AddCompletesInsideClear(entry: Entry, clock: nat -> int)
    requires entry.source.Vault?
    ensures var start := Run(World(Book([], []), Stored(None, None), map[]), [Begin(0, ClearAll), Continue(0)]);
            Run(start, [Begin(1, Add([entry], clock)), Continue(1), Continue(1)])
            == (var added := Book([], [entry.(dateAdded := clock(0))]);
                World(added, Stored(Some([]), Some(added.vaults)), map[0 := [RemoveVaults], 1 := []]))
  {
    var events := [Begin(1, Add([entry], clock)), Continue(1), Continue(1)];
    var start := World(Book([], []), Stored(None, None), map[0 := [RemoveVaults]]);
    ClearHasBegun();
    var added := Book([], [entry.(dateAdded := clock(0))]);
    AddToEmpty(entry, clock);
    RunAppends(start, events, 1);
    var w1 := World(added, Stored(None, None), map[0 := [RemoveVaults], 1 := [SetSaved, SetVaults]]);
    assert Run(start, events[..1]) == w1;
    RunAppends(start, events, 2);
    var w2 := World(added, Stored(Some([]), None), map[0 := [RemoveVaults], 1 := [SetVaults]]);
    assert Run(start, events[..2]) == w2 by {
      assert [SetSaved, SetVaults][1..] == [SetVaults];
    }
    RunAppends(start, events, 3);
    assert Step(w2, Continue(1)).tasks == map[0 := [RemoveVaults], 1 := []];
    assert events[..3] == events;
  }

  lemma AddToEmpty(entry: Entry, clock: nat -> int)
    requires entry.source.Vault?
    ensures AddAll(Book([], []), [entry], clock) == Book([], [entry.(dateAdded := clock(0))])
  {
    assert [entry][..0] == [];
    assert AddAll(Book([], []), [entry], clock) == AddOne(Book([], []), entry, clock(0));
  }

  lemma ClearHasBegun()
    ensures Run(World(Book([], []), Stored(None, None), map[]), [Begin(0, ClearAll), Continue(0)])
            == World(Book([], []), Stored(None, None), map[0 := [RemoveVaults]])
  {
    var w, events := World(Book([], []), Stored(None, None), map[]), [Begin(0, ClearAll), Continue(0)];
    RunAppends(w, events, 1);
    assert Run(w, events[..1]) == World(Book([], []), Stored(None, None), map[0 := [RemoveSaved, RemoveVaults]]);
    RunAppends(w, events, 2);
    assert events[..2] == events;
  }

  lemma RunAppends(w: World, events: seq<Event>, n: nat)
    requires 0 < n <= |events|
    ensures Run(w, events[..n]) == Step(Run(w, events[..n - 1]), events[n - 1])
    ensures Run(w, events[..0]) == w
  {
    assert events[..n][..n - 1] == events[..n - 1];
  }
}
