/**
 * Vault shares and the check that lets one backup replace another
 * (`recordsEqual`, `arraysEqual` and `validateReplacement` of VaultManager.ts).
 */
module VaultShare {
  import opened Wrappers
  import opened StableSort
  import opened JsonText

  /** A string record as `Object.entries` lists it: distinct keys in some order. */
  type Entries = seq<Pair>

  /** A record field that may be absent. */
  type Record = Option<Entries>

  /** `localeCompare(left, right) <= 0`. */
  type KeyOrder = (string, string) -> bool

  datatype CoreVault = CoreVault(
    name: string,
    localPartyId: string,
    ecdsa: string,
    eddsa: string,
    publicKeyMldsa: Option<string>,
    chainPublicKeys: Record,
    signers: seq<string>,
    hexChainCode: string,
    libType: string,
    resharePrefix: Option<string>,
    createdAt: Option<int>,
    keyShares: Record,
    chainKeyShares: Record,
    keyShareMldsa: Option<string>)

  datatype ImportError =
    | InvalidFileFormat
    | PasswordRequired
    | InvalidPassword
    | CorruptedData
    | UnsupportedFormat
    | DuplicateVault
    | StaleShare
    | OtherDeviceShare
    | IncompatibleVault
    | ExistingVaultPasswordRequired
    | PersistenceFailed

  ghost predicate DistinctKeys(entries: Entries) {
    forall i, j :: 0 <= i < j < |entries| ==> entries[i].0 != entries[j].0
  }

  ghost predicate WellFormed(r: Record) {
    r.Some? ==> DistinctKeys(r.value)
  }

  function EntriesOf(r: Record): Entries {
    if r.Some? then r.value else []
  }

  /** What a record means: absent is empty, and the order of the entries does not matter. */
  function ToMap(r: Record): map<string, string> {
    EntriesMap(EntriesOf(r))
  }

  function EntriesMap(entries: Entries): map<string, string> {
    if entries == [] then map[]
    else EntriesMap(entries[..|entries| - 1])[entries[|entries| - 1].0 := entries[|entries| - 1].1]
  }

  function ByKey(leq: KeyOrder): (Pair, Pair) -> bool {
    (p: Pair, q: Pair) => leq(p.0, q.0)
  }

  function Normalize(leq: KeyOrder, r: Record): Entries {
    Sort(ByKey(leq), EntriesOf(r))
  }

  predicate RecordsEqual(leq: KeyOrder, left: Record, right: Record) {
    Stringify(Normalize(leq, left)) == Stringify(Normalize(leq, right))
  }

  /** No two different keys of the record tie under the key order. */
  ghost predicate KeysSeparated(leq: KeyOrder, r: Record) {
    forall p, q :: p in EntriesOf(r) && q in EntriesOf(r) && leq(p.0, q.0) && leq(q.0, p.0) ==> p.0 == q.0
  }

  // ----- recordsEqual is equality of maps -----

  lemma {:induction false} EntriesMapHolds(entries: Entries, p: Pair)
    requires DistinctKeys(entries)
    ensures p in entries <==> p.0 in EntriesMap(entries) && EntriesMap(entries)[p.0] == p.1
  {
    if entries != [] {
      var front, last := entries[..|entries| - 1], entries[|entries| - 1];
      assert entries == front + [last];
      EntriesMapHolds(front, p);
      if p in front {
        assert p.0 != last.0;
      }
    }
  }

  lemma SameMapSameEntries(a: Entries, b: Entries)
    requires DistinctKeys(a) && DistinctKeys(b)
    ensures EntriesMap(a) == EntriesMap(b) <==> forall p :: p in a <==> p in b
  {
    forall p: Pair
      ensures p in a <==> p.0 in EntriesMap(a) && EntriesMap(a)[p.0] == p.1
      ensures p in b <==> p.0 in EntriesMap(b) && EntriesMap(b)[p.0] == p.1
    {
      EntriesMapHolds(a, p);
      EntriesMapHolds(b, p);
    }
    if forall p :: p in a <==> p in b {
      forall k ensures k in EntriesMap(a) <==> k in EntriesMap(b)
      {
        if k in EntriesMap(a) {
          assert (k, EntriesMap(a)[k]) in b;
        }
        if k in EntriesMap(b) {
          assert (k, EntriesMap(b)[k]) in a;
        }
      }
      forall k | k in EntriesMap(a) ensures EntriesMap(a)[k] == EntriesMap(b)[k]
      {
        assert (k, EntriesMap(a)[k]) in b;
      }
    }
  }

  lemma {:induction false} DistinctMultiplicity(entries: Entries, p: Pair)
    requires DistinctKeys(entries)
    ensures multiset(entries)[p] == if p in entries then 1 else 0
  {
    if entries != [] {
      assert entries == [entries[0]] + entries[1..];
      DistinctMultiplicity(entries[1..], p);
    }
  }

  lemma SameEntriesSameMultiset(a: Entries, b: Entries)
    requires DistinctKeys(a) && DistinctKeys(b)
    ensures multiset(a) == multiset(b) <==> forall p :: p in a <==> p in b
  {
    forall p: Pair
      ensures multiset(a)[p] == if p in a then 1 else 0
      ensures multiset(b)[p] == if p in b then 1 else 0
    {
      DistinctMultiplicity(a, p);
      DistinctMultiplicity(b, p);
    }
  }

  lemma ByKeyIsTotalPreorder(leq: KeyOrder)
    requires TotalPreorder(leq)
    ensures TotalPreorder(ByKey(leq))
  {
    var order := ByKey(leq);
    forall p: Pair, q: Pair ensures order(p, q) || order(q, p) {
      assert leq(p.0, q.0) || leq(q.0, p.0);
    }
    forall p: Pair, q: Pair, r: Pair | order(p, q) && order(q, r) ensures order(p, r) {
      assert leq(p.0, q.0) && leq(q.0, r.0);
    }
  }

  lemma SortIsCanonical(leq: KeyOrder, a: Entries, b: Entries)
    requires TotalPreorder(leq)
    requires DistinctKeys(a) && KeysSeparated(leq, Some(a))
    requires multiset(a) == multiset(b)
    ensures Sort(ByKey(leq), a) == Sort(ByKey(leq), b)
  {
    var order := ByKey(leq);
    ByKeyIsTotalPreorder(leq);
    SortSorts(order, a);
    SortSorts(order, b);
    var sorted := Sort(order, a);
    forall p, q | p in sorted && q in sorted && order(p, q) && order(q, p) ensures p == q
    {
      assert p in multiset(sorted) && q in multiset(sorted);
      assert p in a && q in a;
    }
    SortedIsUnique(order, sorted, Sort(order, b));
  }

  /** `recordsEqual` is equality of the two maps, whatever the insertion orders. */
  lemma RecordsEqualIsMapEquality(leq: KeyOrder, left: Record, right: Record)
    requires TotalPreorder(leq)
    requires WellFormed(left) && WellFormed(right) && KeysSeparated(leq, left)
    ensures RecordsEqual(leq, left, right) <==> ToMap(left) == ToMap(right)
  {
    var a, b := EntriesOf(left), EntriesOf(right);
    StringifyDecidesEquality(Normalize(leq, left), Normalize(leq, right));
    SameMapSameEntries(a, b);
    SameEntriesSameMultiset(a, b);
    if RecordsEqual(leq, left, right) {
      assert multiset(a) == multiset(Normalize(leq, left)) == multiset(b);
    }
    if ToMap(left) == ToMap(right) {
      SortIsCanonical(leq, a, b);
    }
  }

  lemma TiedPairStays(order: (Pair, Pair) -> bool, p: Pair, q: Pair)
    requires order(p, q)
    ensures Sort(order, [p, q]) == [p, q]
  {
    assert [p, q][1..] == [q] && [q][1..] == [];
    assert Sort(order, [q]) == [q];
  }

  /** Two different keys that tie make `recordsEqual` depend on insertion order. */
  lemma TiedKeysBreakRecordsEqual(leq: KeyOrder, x: string, y: string)
    requires TotalPreorder(leq) && x != y && leq(x, y) && leq(y, x)
    ensures var left, right := Some([(x, ""), (y, "")]), Some([(y, ""), (x, "")]);
            && WellFormed(left) && WellFormed(right)
            && ToMap(left) == ToMap(right) && !RecordsEqual(leq, left, right)
  {
    var a, b := [(x, ""), (y, "")], [(y, ""), (x, "")];
    TiedPairStays(ByKey(leq), (x, ""), (y, ""));
    TiedPairStays(ByKey(leq), (y, ""), (x, ""));
    StringifyDecidesEquality(a, b);
    assert a[0] != b[0];
    SameMapSameEntries(a, b);
  }

  ghost predicate OrderIsAntisymmetric(leq: KeyOrder) {
    forall x, y :: leq(x, y) && leq(y, x) ==> x == y
  }

  ghost predicate RecordsEqualIsExact(leq: KeyOrder) {
    forall left, right :: WellFormed(left) && WellFormed(right) ==>
                            (RecordsEqual(leq, left, right) <==> ToMap(left) == ToMap(right))
  }

  /** The exact condition on the key order for `recordsEqual` to be equality of maps. */
  lemma RecordsEqualIsExactIffNoTies(leq: KeyOrder)
    requires TotalPreorder(leq)
    ensures RecordsEqualIsExact(leq) <==> OrderIsAntisymmetric(leq)
  {
    if OrderIsAntisymmetric(leq) {
      forall left, right | WellFormed(left) && WellFormed(right)
        ensures RecordsEqual(leq, left, right) <==> ToMap(left) == ToMap(right)
      {
        RecordsEqualIsMapEquality(leq, left, right);
      }
    } else {
      var x, y :| leq(x, y) && leq(y, x) && x != y;
      TiedKeysBreakRecordsEqual(leq, x, y);
    }
  }

  // ----- arraysEqual and validateReplacement -----

  /** The `length` test and the `every` loop. */
  method ArraysEqual(left: seq<string>, right: seq<string>) returns (equal: bool)
    ensures equal <==> left == right
  {
    if |left| != |right| {
      return false;
    }
    for i := 0 to |left|
      invariant left[..i] == right[..i]
    {
      if left[i] != right[i] {
        return false;
      }
    }
    assert left == left[..|left|] && right == right[..|right|];
    return true;
  }

  /** The error `validateReplacement` throws, or None when it accepts. */
  function ValidateReplacement(leq: KeyOrder, existing: CoreVault, imported: CoreVault): Option<ImportError> {
    if existing.localPartyId != imported.localPartyId then Some(OtherDeviceShare)
    else if !(&& existing.ecdsa == imported.ecdsa
              && existing.eddsa == imported.eddsa
              && existing.publicKeyMldsa == imported.publicKeyMldsa
              && RecordsEqual(leq, existing.chainPublicKeys, imported.chainPublicKeys)) then Some(IncompatibleVault)
    else if !(&& existing.signers == imported.signers
              && existing.hexChainCode == imported.hexChainCode
              && existing.libType == imported.libType
              && existing.resharePrefix == imported.resharePrefix
              && existing.createdAt == imported.createdAt
              && RecordsEqual(leq, existing.keyShares, imported.keyShares)
              && RecordsEqual(leq, existing.chainKeyShares, imported.chainKeyShares)
              && existing.keyShareMldsa == imported.keyShareMldsa) then Some(StaleShare)
    else None
  }

  predicate Accepts(leq: KeyOrder, existing: CoreVault, imported: CoreVault) {
    ValidateReplacement(leq, existing, imported) == None
  }

  /** The same public key in every domain. */
  ghost predicate SameKeyDomains(a: CoreVault, b: CoreVault) {
    && a.ecdsa == b.ecdsa && a.eddsa == b.eddsa && a.publicKeyMldsa == b.publicKeyMldsa
    && ToMap(a.chainPublicKeys) == ToMap(b.chainPublicKeys)
  }

  /** Equal in every field but the display name, with records read as maps. */
  ghost predicate SameShare(a: CoreVault, b: CoreVault) {
    && a.localPartyId == b.localPartyId && SameKeyDomains(a, b)
    && a.signers == b.signers && a.hexChainCode == b.hexChainCode && a.libType == b.libType
    && a.resharePrefix == b.resharePrefix && a.createdAt == b.createdAt
    && ToMap(a.keyShares) == ToMap(b.keyShares)
    && ToMap(a.chainKeyShares) == ToMap(b.chainKeyShares)
    && a.keyShareMldsa == b.keyShareMldsa
  }

  ghost predicate WellFormedVault(v: CoreVault) {
    WellFormed(v.chainPublicKeys) && WellFormed(v.keyShares) && WellFormed(v.chainKeyShares)
  }

  ghost predicate VaultKeysSeparated(leq: KeyOrder, v: CoreVault) {
    && KeysSeparated(leq, v.chainPublicKeys) && KeysSeparated(leq, v.keyShares)
    && KeysSeparated(leq, v.chainKeyShares)
  }

  /** Which verdict is given, in terms of what the two vaults mean. */
  lemma ValidateReplacementVerdict(leq: KeyOrder, existing: CoreVault, imported: CoreVault)
    requires TotalPreorder(leq) && VaultKeysSeparated(leq, existing)
    requires WellFormedVault(existing) && WellFormedVault(imported)
    ensures var verdict := ValidateReplacement(leq, existing, imported);
            && (verdict == None <==> SameShare(existing, imported))
            && (verdict == Some(OtherDeviceShare) <==> existing.localPartyId != imported.localPartyId)
            && (verdict == Some(IncompatibleVault) <==>
                existing.localPartyId == imported.localPartyId && !SameKeyDomains(existing, imported))
            && (verdict == Some(StaleShare) <==>
                && existing.localPartyId == imported.localPartyId && SameKeyDomains(existing, imported)
                && !SameShare(existing, imported))
  {
    RecordsEqualIsMapEquality(leq, existing.chainPublicKeys, imported.chainPublicKeys);
    RecordsEqualIsMapEquality(leq, existing.keyShares, imported.keyShares);
    RecordsEqualIsMapEquality(leq, existing.chainKeyShares, imported.chainKeyShares);
  }

  /** Records compare equal exactly when their sorted entry lists are the same. */
  lemma RecordsEqualIsNormalFormEquality(leq: KeyOrder, left: Record, right: Record)
    ensures RecordsEqual(leq, left, right) <==> Normalize(leq, left) == Normalize(leq, right)
  {
    StringifyDecidesEquality(Normalize(leq, left), Normalize(leq, right));
  }

  /** Everything that decides acceptance, brought to a form in which to be accepted is to be equal. */
  function NormalForm(leq: KeyOrder, v: CoreVault): CoreVault {
    v.(name := "",
       chainPublicKeys := Some(Normalize(leq, v.chainPublicKeys)),
       keyShares := Some(Normalize(leq, v.keyShares)),
       chainKeyShares := Some(Normalize(leq, v.chainKeyShares)))
  }

  lemma AcceptsIsNormalFormEquality(leq: KeyOrder, a: CoreVault, b: CoreVault)
    ensures Accepts(leq, a, b) <==> NormalForm(leq, a) == NormalForm(leq, b)
  {
    RecordsEqualIsNormalFormEquality(leq, a.chainPublicKeys, b.chainPublicKeys);
    RecordsEqualIsNormalFormEquality(leq, a.keyShares, b.keyShares);
    RecordsEqualIsNormalFormEquality(leq, a.chainKeyShares, b.chainKeyShares);
  }

  /** Acceptance is an equivalence relation on vaults, for any key order at all. */
  lemma AcceptanceIsEquivalence(leq: KeyOrder, a: CoreVault, b: CoreVault, c: CoreVault)
    ensures Accepts(leq, a, a)
    ensures Accepts(leq, a, b) ==> Accepts(leq, b, a)
    ensures Accepts(leq, a, b) && Accepts(leq, b, c) ==> Accepts(leq, a, c)
  {
    AcceptsIsNormalFormEquality(leq, a, a);
    AcceptsIsNormalFormEquality(leq, a, b);
    AcceptsIsNormalFormEquality(leq, b, a);
    AcceptsIsNormalFormEquality(leq, b, c);
    AcceptsIsNormalFormEquality(leq, a, c);
  }
}
