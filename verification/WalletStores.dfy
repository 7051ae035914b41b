/** The lifecycle file and the seed custody of the dedicated agent wallet, with the operations on them. */
module WalletStores {
  import opened Options

  type Id = string
  type Address = string
  type Seed = seq<bv8>

  datatype SeedRecord = SeedRecord(address: Address, seed: Seed)

  datatype Lifecycle =
    | Provisioning(id: Id, owner: nat, active: bool, expected: Option<Address>)
    | Configured(id: Id, address: Address)

  datatype Stores = Stores(lifecycle: Option<Lifecycle>, seeds: map<Id, SeedRecord>)

  datatype Code =
    | AlreadyConfigured | Busy | RepairRequired | ManualRecoveryRequired | CredentialStoreUnavailable | Unavailable

  datatype Action = Created | Recovered | Verified | ClearedIncomplete | NoAction

  datatype Result = Ok(action: Action) | Err(code: Code)

  /** What an update finds when it reads the file: a record to put in its place (none: remove it), nothing to do, or a refusal. */
  datatype Finding = Write(record: Option<Lifecycle>) | Done | Refused(code: Code)

  /** A provisioning record is active while its flag is set and the process that owns it is alive. */
  predicate IsActive(l: Lifecycle, alive: set<nat>) {
    l.Provisioning? && l.active && l.owner in alive
  }

  /** The record a process puts in place of an absent file. */
  function Begun(id: Id, owner: nat): Lifecycle {
    Provisioning(id, owner, true, None)
  }

  predicate Matches(l: Option<Lifecycle>, id: Id) {
    l.Some? && l.value.Provisioning? && l.value.id == id
  }

  function SetExpected(l: Option<Lifecycle>, id: Id, address: Address): Finding {
    if !Matches(l, id) || (l.value.expected.Some? && l.value.expected != Some(address)) then Refused(ManualRecoveryRequired)
    else Write(Some(l.value.(expected := Some(address))))
  }

  function AbandonProvisioning(l: Option<Lifecycle>, id: Id): Finding {
    if !Matches(l, id) then Refused(ManualRecoveryRequired)
    else if !l.value.active then Done
    else Write(Some(l.value.(active := false)))
  }

  function CommitConfigured(l: Option<Lifecycle>, id: Id, address: Address): Finding {
    if !Matches(l, id) || l.value.expected != Some(address) then Refused(ManualRecoveryRequired)
    else Write(Some(Configured(id, address)))
  }

  function ClearProvisioning(l: Option<Lifecycle>, id: Id): Finding {
    if l.None? then Done
    else if !Matches(l, id) then Refused(ManualRecoveryRequired)
    else Write(None)
  }

  /** Storing a seed replaces whatever is under the id. */
  function PutSeed(s: Stores, id: Id, address: Address, seed: Seed): Stores {
    s.(seeds := s.seeds[id := SeedRecord(address, seed)])
  }

  /** A stored seed whose recorded address is the one derived from it. */
  predicate ValidSeed(derive: Seed -> Address, r: SeedRecord) {
    derive(r.seed) == r.address
  }

  /**
   At most one seed, and a valid one; a configured lifecycle names it and commits to its address; while provisioning,
   only the operation's own seed can exist, under the address already committed to.
   */
  ghost predicate StoreInv(derive: Seed -> Address, s: Stores) {
    && (forall i :: i in s.seeds ==> ValidSeed(derive, s.seeds[i]))
    && (forall i, j :: i in s.seeds && j in s.seeds ==> i == j)
    && match s.lifecycle
       case None => true
       case Some(Configured(id, address)) => id in s.seeds && s.seeds[id].address == address
       case Some(Provisioning(id, _, _, expected)) =>
         forall i :: i in s.seeds ==> i == id && (expected.Some? ==> s.seeds[i].address == expected.value)
  }

  /** No seed present now is missing or different later. */
  ghost predicate SeedsKept(before: Stores, after: Stores) {
    forall i :: i in before.seeds ==> i in after.seeds && after.seeds[i] == before.seeds[i]
  }

  /** Once there is a lifecycle, or no seed, there is never again a seed without a lifecycle. */
  predicate SettledStores(s: Stores) {
    s.lifecycle.Some? || s.seeds == map[]
  }

  // ----- every write, where it is used, keeps the stores sound

  ghost predicate Keeps(derive: Seed -> Address, s: Stores, s': Stores) {
    StoreInv(derive, s') && SeedsKept(s, s') && (SettledStores(s) ==> SettledStores(s'))
  }

  /** A provisioning record fits when any seed is its own, under the address committed to. */
  lemma ProvisioningKeeps(derive: Seed -> Address, s: Stores, l: Lifecycle)
    requires StoreInv(derive, s) && l.Provisioning?
    requires forall i :: i in s.seeds ==> i == l.id && (l.expected.Some? ==> s.seeds[i].address == l.expected.value)
    ensures Keeps(derive, s, s.(lifecycle := Some(l)))
  {
  }

  /** A configured record fits when its seed is in custody under the committed address. */
  lemma ConfiguredKeeps(derive: Seed -> Address, s: Stores, id: Id, address: Address)
    requires StoreInv(derive, s) && id in s.seeds && s.seeds[id].address == address
    ensures Keeps(derive, s, s.(lifecycle := Some(Configured(id, address))))
  {
  }

  /** The lifecycle may go when there is no seed. */
  lemma AbsenceKeeps(derive: Seed -> Address, s: Stores)
    requires StoreInv(derive, s) && s.seeds == map[]
    ensures Keeps(derive, s, s.(lifecycle := None))
  {
  }

  /** The first seed fits when the lifecycle has committed to it. */
  lemma SeedKeeps(derive: Seed -> Address, s: Stores, id: Id, seed: Seed)
    requires StoreInv(derive, s) && s.seeds == map[]
    requires Matches(s.lifecycle, id) && s.lifecycle.value.expected == Some(derive(seed))
    ensures Keeps(derive, s, PutSeed(s, id, derive(seed), seed))
  {
  }
}
