/** backend/src/services/storeService.js: admission of new stores, the bounded FIFO
    provisioning scheduler, deletion, and the read-side queries.

    The module's two pieces of in-memory state (the active-provision counter and the queue)
    are fields of `Orchestrator`, next to the store table. The source never blocks: each
    `await` on a provisioner ends the synchronous part of an operation, and what happens once
    the provisioner answers is a separate method (`FinishProvision`, `CompleteDeletion`)
    whose parameters are the helm and kubectl outcomes. */
module StoreService {
  import opened Values
  import opened StoreDb
  import NameValidator
  import Provisioners

  const DefaultMaxStores: nat := 10
  const DefaultMaxConcurrentProvisions: nat := 3
  const DefaultAuditLimit: nat := 50
  const SystemIp := "system"
  const MappedPrefix := "::ffff:"
  const NamespacePrefix := "store-"
  const UnknownTypePrefix := "Unknown store type: "
  const DeletionFailedPrefix := "Deletion failed: "
  const DeletionInitiated := "Store deletion initiated"

  // ---------------------------------------------------------------------------
  // Client addresses

  predicate HasMappedPrefix(s: string) {
    |s| >= |MappedPrefix| && s[..|MappedPrefix|] == MappedPrefix
  }

  /** normalizeIp: an IPv4-mapped IPv6 address loses its "::ffff:" prefix (once); every other
      value, a missing one and "system" included, is kept. */
  function NormalizeIp(ip: Option<string>): (r: Option<string>)
    ensures r.Some? <==> ip.Some?
    ensures ip.Some? && HasMappedPrefix(ip.value) ==> ip.value == MappedPrefix + r.value
    ensures ip.Some? && !HasMappedPrefix(ip.value) ==> r == ip
  {
    if ip.None? || ip.value == "" || ip.value == SystemIp then ip
    else if HasMappedPrefix(ip.value) then Some(ip.value[|MappedPrefix|..])
    else ip
  }

  /** The prefix is stripped once, not repeatedly. */
  lemma NormalizeIpStripsOnce(a: string)
    ensures NormalizeIp(Some(MappedPrefix + a)) == Some(a)
    ensures NormalizeIp(Some(MappedPrefix + MappedPrefix + a)) == Some(MappedPrefix + a)
  {
    assert (MappedPrefix + a)[..|MappedPrefix|] == MappedPrefix;
    assert (MappedPrefix + MappedPrefix + a)[..|MappedPrefix|] == MappedPrefix;
    assert (MappedPrefix + MappedPrefix + a)[|MappedPrefix|..] == MappedPrefix + a;
  }

  // ---------------------------------------------------------------------------
  // Errors the service throws

  datatype RequestError = TooManyStores(limit: nat) | NameUnusable | DuplicateName(existingName: string) | StoreNotFound

  /** The `err.status` each error carries. */
  function StatusCode(e: RequestError): (code: int)
    ensures code == 409 <==> e.TooManyStores? || e.DuplicateName?
    ensures code == 400 <==> e.NameUnusable?
    ensures code == 404 <==> e.StoreNotFound?
  {
    match e
    case TooManyStores(_) => 409
    case NameUnusable => 400
    case DuplicateName(_) => 409
    case StoreNotFound => 404
  }

  const CapMessagePrefix := "Maximum number of stores ("
  const CapMessageSuffix := ") reached"
  const UnusableMessage := "Store name must contain at least 2 alphanumeric characters"
  const DuplicatePrefix := "A store with a similar name already exists (\""
  const DuplicateSuffix := "\")"
  const NotFoundMessage := "Store not found"

  /** The cap message of storeService.js:71: the cap in decimal between a fixed prefix and
      suffix, so that it reads back as the cap. */
  function CapMessage(limit: nat): (r: string)
    ensures |CapMessagePrefix| + |CapMessageSuffix| <= |r|
    ensures r[..|CapMessagePrefix|] == CapMessagePrefix && r[|r| - |CapMessageSuffix|..] == CapMessageSuffix
    ensures var digits := r[|CapMessagePrefix|..|r| - |CapMessageSuffix|];
      && |digits| >= 1 && (|digits| > 1 ==> digits[0] != '0')
      && (forall i :: 0 <= i < |digits| ==> IsDigit(digits[i])) && DecimalValue(digits) == limit
  {
    var digits := NatToString(limit);
    var r := CapMessagePrefix + digits + CapMessageSuffix;
    assert r[..|CapMessagePrefix|] == CapMessagePrefix;
    assert r[|r| - |CapMessageSuffix|..] == CapMessageSuffix;
    assert r[|CapMessagePrefix|..|r| - |CapMessageSuffix|] == digits;
    r
  }

  /** The thrown Error's message. */
  function ErrorMessage(e: RequestError): (r: string)
    ensures e.TooManyStores? ==> r == CapMessage(e.limit)
    ensures e.DuplicateName? ==> r == DuplicatePrefix + e.existingName + DuplicateSuffix
    ensures e.NameUnusable? ==> r == UnusableMessage
    ensures e.StoreNotFound? ==> r == NotFoundMessage
  {
    match e
    case TooManyStores(limit) => CapMessage(limit)
    case NameUnusable => UnusableMessage
    case DuplicateName(name) => DuplicatePrefix + name + DuplicateSuffix
    case StoreNotFound => NotFoundMessage
  }

  // ---------------------------------------------------------------------------
  // Admission

  /** The row holding `slug`, if any (the table's UNIQUE constraint makes it the only one). */
  ghost function SlugOwner(rows: map<StoreId, Row>, slug: string): (r: Option<Row>)
    requires TableInvariant(rows)
    ensures r.None? <==> SlugFree(rows, slug)
    ensures r.Some? ==> r.value.id in rows && rows[r.value.id] == r.value && r.value.slug == slug
  {
    if SlugFree(rows, slug) then None
    else
      var k :| k in rows && rows[k].slug == slug;
      Some(rows[k])
  }

  /** createStore's checks, in the order it makes them: the cap on stores that are neither
      deleted nor failed, then the slug length, then a live store holding the slug. On
      admission, the result names the released row to remove first, if there is one. */
  function Admission(count: nat, maxStores: nat, slug: string, existing: Option<Row>): (r: Result<Option<StoreId>, RequestError>)
    ensures r == Failure(TooManyStores(maxStores)) <==> count >= maxStores
    ensures r == Failure(NameUnusable) <==> count < maxStores && |slug| < 2
    ensures (r.Failure? && r.error.DuplicateName?) <==>
      count < maxStores && |slug| >= 2 && existing.Some? && !Releasable(existing.value.status)
    ensures r.Failure? && r.error.DuplicateName? ==> r.error.existingName == existing.value.name
    ensures r.Success? <==> count < maxStores && |slug| >= 2 && (existing.None? || Releasable(existing.value.status))
    ensures r.Success? ==> r.value == (if existing.Some? then Some(existing.value.id) else None)
  {
    if count >= maxStores then Failure(TooManyStores(maxStores))
    else if |slug| < 2 then Failure(NameUnusable)
    else if existing.Some? && !Releasable(existing.value.status) then Failure(DuplicateName(existing.value.name))
    else Success(if existing.Some? then Some(existing.value.id) else None)
  }

  /** The table after a released row holding the slug has been removed. */
  ghost function Reclaimed(rows: map<StoreId, Row>, slug: string): map<StoreId, Row>
    requires TableInvariant(rows)
  {
    var owner := SlugOwner(rows, slug);
    if owner.Some? then rows - {owner.value.id} else rows
  }

  function Namespace(slug: string): string {
    NamespacePrefix + slug
  }

  /** A store's namespace is a Kubernetes name: at most 59 characters, lower-case letters,
      digits and single hyphens, ending in a letter or digit. */
  lemma NamespaceShape(name: string)
    requires |NameValidator.Slugify(name)| >= 2
    ensures var ns := Namespace(NameValidator.Slugify(name));
      && |ns| <= 59
      && NameValidator.SlugChars(ns)
      && NameValidator.NoDoubleHyphen(ns)
      && NameValidator.NoTrailingHyphen(ns)
  {
    var slug := NameValidator.Slugify(name);
    NameValidator.SlugifyShape(name);
    var ns := Namespace(slug);
    assert forall i :: 6 <= i < |ns| ==> ns[i] == slug[i - 6];
    assert ns[|ns| - 1] == slug[|slug| - 1];
  }

  /** Every request the schema accepts names a type that has a provisioner, so the
      unknown-type branch of provisioning and deletion is reachable only from rows written
      by other means. */
  lemma ValidatedTypeHasProvisioner(input: NameValidator.StoreInput)
    requires NameValidator.ValidateStoreInput(input).Some?
    ensures Provisioners.Lookup(NameValidator.ValidateStoreInput(input).value.storeType).Some?
  {
  }

  // ---------------------------------------------------------------------------
  // Provisioning jobs

  /** A queued or running provisioning; its `name` is the store's slug. */
  datatype Job = Job(
    id: StoreId,
    name: string,
    storeType: string,
    namespace: string,
    adminUser: string,
    adminPassword: Option<string>)

  function RequestOf(job: Job): Provisioners.ProvisionRequest {
    Provisioners.ProvisionRequest(job.id, job.name, job.namespace, job.adminUser, job.adminPassword)
  }

  function UnknownTypeMessage(storeType: string): string {
    UnknownTypePrefix + storeType
  }

  /** What starting a job does to the table: with no provisioner for its type, the row fails
      at once; otherwise nothing happens until the provisioner answers. */
  function StartEffect(rows: map<StoreId, Row>, job: Job): map<StoreId, Row> {
    if Provisioners.Lookup(job.storeType).None?
    then StatusSet(rows, job.id, Failed, None, None, Some(UnknownTypeMessage(job.storeType)))
    else rows
  }

  /** Starting `jobs` in order. */
  function StartAll(rows: map<StoreId, Row>, jobs: seq<Job>): map<StoreId, Row>
    decreases |jobs|
  {
    if jobs == [] then rows else StartEffect(StartAll(rows, jobs[..|jobs| - 1]), jobs[|jobs| - 1])
  }

  lemma StartAllSnoc(rows: map<StoreId, Row>, jobs: seq<Job>, job: Job)
    ensures StartAll(rows, jobs + [job]) == StartEffect(StartAll(rows, jobs), job)
  {
    assert (jobs + [job])[..|jobs|] == jobs;
  }

  lemma PrefixSnoc(q: seq<Job>, n: nat)
    requires n < |q|
    ensures q[..n + 1] == q[..n] + [q[n]]
    ensures multiset(q[..n + 1]) == multiset(q[..n]) + multiset{q[n]}
  {
    assert q[..n + 1] == q[..n] + [q[n]];
  }

  /** Jobs of known types start without touching the table. */
  lemma {:induction false} KnownJobsStartSilently(rows: map<StoreId, Row>, jobs: seq<Job>)
    requires forall i :: 0 <= i < |jobs| ==> Provisioners.Lookup(jobs[i].storeType).Some?
    ensures StartAll(rows, jobs) == rows
    decreases |jobs|
  {
    if jobs != [] {
      KnownJobsStartSilently(rows, jobs[..|jobs| - 1]);
    }
  }

  /** What the provisioner answers for a job: nothing when there is none for its type. */
  function JobOutcome(woo: Provisioners.WooCommerceProvisioner, job: Job, install: CallOutcome): Option<Result<Provisioners.Urls, string>> {
    match Provisioners.Lookup(job.storeType)
    case None => None
    case Some(WooCommerce) => Some(woo.ProvisionOutcome(job.name, install))
    case Some(Medusa) => Some(Provisioners.MedusaProvision(RequestOf(job)))
  }

  /** The table once a provisioner has answered: the finish time is stamped, then the row
      becomes ready with its URLs or failed with the error's message. */
  function Completed(rows: map<StoreId, Row>, id: StoreId, outcome: Result<Provisioners.Urls, string>, now: Time): map<StoreId, Row> {
    var stamped := FinishStamped(rows, id, now);
    match outcome
    case Success(u) => StatusSet(stamped, id, Ready, Some(u.storeUrl), Some(u.adminUrl), None)
    case Failure(m) => StatusSet(stamped, id, Failed, None, None, Some(m))
  }

  function CompletionEntry(id: StoreId, outcome: Result<Provisioners.Urls, string>): AuditEntry {
    match outcome
    case Success(u) => AuditEntry(id, ProvisionSuccess, UrlDetails(Some(u.storeUrl), Some(u.adminUrl)), Some(SystemIp))
    case Failure(m) => AuditEntry(id, ProvisionFailed, ErrorDetails(m), Some(SystemIp))
  }

  /** A WooCommerce store becomes ready exactly when its helm install succeeds, and then its
      store URL's host names the store's slug. */
  lemma WooCommerceReadyIffInstalled(woo: Provisioners.WooCommerceProvisioner, rows: map<StoreId, Row>, job: Job,
                                     install: CallOutcome, now: Time)
    requires job.storeType == "woocommerce" && job.id in rows
    requires NameValidator.SlugChars(job.name)
    ensures var after := Completed(rows, job.id, JobOutcome(woo, job, install).value, now);
      && (after[job.id].status == Ready <==> install.Succeeded?)
      && (install.FailedWith? ==> after[job.id].status == Failed && after[job.id].errorMessage == Some(install.message))
      && after[job.id].finishedAt == Some(now)
      && (install.Succeeded? ==> Provisioners.HostLabel(after[job.id].storeUrl.value) == job.name
                                 && after[job.id].adminUrl == Some(after[job.id].storeUrl.value + "/wp-admin"))
  {
    if install.Succeeded? {
      assert forall i :: 0 <= i < |job.name| ==> NameValidator.IsSlugChar(job.name[i]);
      woo.StoreUrlNamesStore(job.name);
    }
  }

  /** A Medusa store never becomes ready: its row always ends failed with the provisioner's
      message. */
  lemma MedusaStoreEndsFailed(woo: Provisioners.WooCommerceProvisioner, rows: map<StoreId, Row>, job: Job,
                              install: CallOutcome, now: Time)
    requires job.storeType == "medusa" && job.id in rows
    ensures JobOutcome(woo, job, install).Some?
    ensures var after := Completed(rows, job.id, JobOutcome(woo, job, install).value, now);
      && after[job.id].status == Failed
      && after[job.id].errorMessage == Some(Provisioners.MedusaProvisionMessage)
  {
  }

  /** Last writer wins: a provisioning that answers after the store was marked for deletion
      overwrites the 'deleting' status. */
  lemma LateProvisionOverwritesDeleting(rows: map<StoreId, Row>, id: StoreId, u: Provisioners.Urls, now: Time)
    requires id in rows && rows[id].status == Deleting
    ensures Completed(rows, id, Success(u), now)[id].status == Ready
  {
  }

  // ---------------------------------------------------------------------------
  // Deletion

  /** What `deprovision` answers: the WooCommerce provisioner always resolves, the Medusa
      one always rejects. */
  function DeletionOutcome(store: Row): Result<(), string> {
    match Provisioners.Lookup(store.storeType)
    case Some(Medusa) => Provisioners.MedusaDeprovision(store.slug, store.name, store.namespace)
    case _ => Success(())
  }

  function DeletionApplied(rows: map<StoreId, Row>, id: StoreId, outcome: Result<(), string>): map<StoreId, Row> {
    match outcome
    case Success(_) => StatusSet(rows, id, Deleted, None, None, None)
    case Failure(m) => StatusSet(rows, id, Failed, None, None, Some(DeletionFailedPrefix + m))
  }

  function DeletionEntry(store: Row, outcome: Result<(), string>): AuditEntry {
    match outcome
    case Success(_) => AuditEntry(store.id, DeleteSuccess, NameDetails(store.name), Some(SystemIp))
    case Failure(m) => AuditEntry(store.id, DeleteFailed, ErrorDetails(m), Some(SystemIp))
  }

  /** Deleting a Medusa store always fails, leaving the row failed with a fixed message. */
  lemma MedusaDeletionFails(rows: map<StoreId, Row>, store: Row)
    requires store.storeType == "medusa" && store.id in rows
    ensures var after := DeletionApplied(rows, store.id, DeletionOutcome(store));
      && after[store.id].status == Failed
      && after[store.id].errorMessage == Some(DeletionFailedPrefix + Provisioners.MedusaDeprovisionMessage)
    ensures DeletionEntry(store, DeletionOutcome(store)) ==
      AuditEntry(store.id, DeleteFailed, ErrorDetails(Provisioners.MedusaDeprovisionMessage), Some(SystemIp))
  {
  }

  /** Deleting a WooCommerce store always reaches 'deleted', whatever helm and kubectl say. */
  lemma WooCommerceDeletionSucceeds(rows: map<StoreId, Row>, store: Row)
    requires store.storeType == "woocommerce" && store.id in rows
    ensures var after := DeletionApplied(rows, store.id, DeletionOutcome(store));
      && after[store.id].status == Deleted
      && after[store.id].errorMessage.None? && after[store.id].storeUrl.None? && after[store.id].adminUrl.None?
    ensures DeletionEntry(store, DeletionOutcome(store)) == AuditEntry(store.id, DeleteSuccess, NameDetails(store.name), Some(SystemIp))
  {
  }

  /** The cap is checked only on creation: marking a failed store for deletion puts it back
      into the count the cap is checked against. */
  lemma DeletingFailedStoreCountsAgain(rows: map<StoreId, Row>, id: StoreId, storeUrl: Option<string>, adminUrl: Option<string>)
    requires id in rows && rows[id].status == Failed
    ensures CountActive(StatusSet(rows, id, Deleting, storeUrl, adminUrl, None)) == CountActive(rows) + 1
  {
    StatusSetActive(rows, id, Deleting, storeUrl, adminUrl, None);
    assert ActiveIds(rows) - {id} == ActiveIds(rows);
  }

  /** Failing a row never adds to the count the cap is checked against. */
  lemma FailingNeverAddsActive(rows: map<StoreId, Row>, id: StoreId, message: Option<string>)
    ensures CountActive(StatusSet(rows, id, Failed, None, None, message)) <= CountActive(rows)
  {
    if id in rows {
      StatusSetActive(rows, id, Failed, None, None, message);
      assert ActiveIds(StatusSet(rows, id, Failed, None, None, message)) == ActiveIds(rows) - {id};
    }
  }

  // ---------------------------------------------------------------------------
  // Metrics

  /** The scheduler's bound: never more than the limit running, and nothing waits while a
      slot is free. */
  predicate SchedulerInvariant(active: nat, queued: nat, maxConcurrent: nat) {
    active <= maxConcurrent && (queued > 0 ==> active == maxConcurrent)
  }

  function CountOf(m: map<Status, nat>, s: Status): nat {
    if s in m then m[s] else 0
  }

  datatype Metrics = Metrics(
    totalStores: nat,
    storesByStatus: map<Status, nat>,
    totalFailures: nat,
    activeProvisions: nat,
    queuedProvisions: nat,
    maxConcurrentProvisions: nat,
    maxStores: nat)

  /** How many jobs a drain starts: as many as are queued, up to the free slots. */
  function DrainCount(queued: nat, free: nat): (k: nat)
    ensures k <= queued && k <= free && (k == queued || k == free)
  {
    if queued < free then queued else free
  }

  // ---------------------------------------------------------------------------
  // The service

  class Orchestrator {
    const db: StoreTable
    const woo: Provisioners.WooCommerceProvisioner
    const maxStores: nat
    const maxConcurrent: nat
    /** activeProvisions */
    var active: nat
    /** provisionQueue */
    var queue: seq<Job>
    /** Every job ever enqueued, in order, and those among them that have started. */
    ghost var admitted: seq<Job>
    ghost var started: seq<Job>
    /** The jobs whose `finally` has not run yet. */
    ghost var inFlight: multiset<Job>
    /** The row snapshots whose `deprovision` has not answered yet. */
    ghost var deletions: multiset<Row>

    /** Everything but the bound on a non-empty queue, which a drain restores. */
    ghost predicate Sound()
      reads this, db
    {
      && db.Valid()
      && active <= maxConcurrent
      && active == |inFlight|
      && admitted == started + queue
      && (forall s :: s in deletions ==> Provisioners.Lookup(s.storeType).Some?)
    }

    ghost predicate Valid()
      reads this, db
    {
      Sound() && SchedulerInvariant(active, |queue|, maxConcurrent)
    }

    /** The limits come from MAX_STORES and MAX_CONCURRENT_PROVISIONS, 10 and 3 when unset. */
    constructor (table: StoreTable, provisioner: Provisioners.WooCommerceProvisioner,
                 maxStoresEnv: Option<nat>, maxConcurrentEnv: Option<nat>)
      requires table.Valid()
      ensures Valid()
      ensures db == table && woo == provisioner
      ensures maxStores == (if maxStoresEnv.Some? then maxStoresEnv.value else DefaultMaxStores)
      ensures maxConcurrent == (if maxConcurrentEnv.Some? then maxConcurrentEnv.value else DefaultMaxConcurrentProvisions)
      ensures active == 0 && queue == [] && admitted == [] && started == []
      ensures inFlight == multiset{} && deletions == multiset{}
    {
      db := table;
      woo := provisioner;
      maxStores := if maxStoresEnv.Some? then maxStoresEnv.value else DefaultMaxStores;
      maxConcurrent := if maxConcurrentEnv.Some? then maxConcurrentEnv.value else DefaultMaxConcurrentProvisions;
      active := 0;
      queue := [];
      admitted := [];
      started := [];
      inFlight := multiset{};
      deletions := multiset{};
    }

    /** The synchronous part of provisionStore: with no provisioner for the type the row
        fails at once; otherwise the provisioner's call is now outstanding. */
    method StartJob(job: Job)
      requires db.Valid()
      modifies db
      ensures db.Valid()
      ensures db.rows == StartEffect(old(db.rows), job)
      ensures db.audit == old(db.audit)
    {
      if Provisioners.Lookup(job.storeType).None? {
        db.UpdateStatus(job.id, Failed, None, None, Some(UnknownTypeMessage(job.storeType)));
      }
    }

    /** enqueueProvision: start the job when a slot is free, otherwise queue it at the back. */
    method EnqueueProvision(job: Job)
      requires Valid()
      modifies this, db
      ensures Valid()
      ensures admitted == old(admitted) + [job]
      ensures deletions == old(deletions) && db.audit == old(db.audit)
      ensures if old(active) < maxConcurrent
        then active == old(active) + 1 && queue == old(queue) && started == old(started) + [job]
             && inFlight == old(inFlight) + multiset{job} && db.rows == StartEffect(old(db.rows), job)
        else active == old(active) && queue == old(queue) + [job] && started == old(started)
             && inFlight == old(inFlight) && db.rows == old(db.rows)
    {
      admitted := admitted + [job];
      if active < maxConcurrent {
        active := active + 1;
        started := started + [job];
        inFlight := inFlight + multiset{job};
        StartJob(job);
      } else {
        queue := queue + [job];
      }
    }

    /** One round of drainQueue: the job at the front of the queue takes a free slot. */
    method StartNext()
      requires Sound() && queue != [] && active < maxConcurrent
      modifies this, db
      ensures Sound()
      ensures queue == old(queue)[1..] && active == old(active) + 1
      ensures started == old(started) + [old(queue)[0]]
      ensures inFlight == old(inFlight) + multiset{old(queue)[0]}
      ensures db.rows == StartEffect(old(db.rows), old(queue)[0])
      ensures admitted == old(admitted) && deletions == old(deletions) && db.audit == old(db.audit)
    {
      var next := queue[0];
      assert started + queue == (started + [next]) + queue[1..];
      queue := queue[1..];
      active := active + 1;
      started := started + [next];
      inFlight := inFlight + multiset{next};
      StartJob(next);
    }

    /** drainQueue: start queued jobs from the front while a slot is free. */
    method DrainQueue()
      requires Sound()
      modifies this, db
      ensures Valid()
      ensures var k := DrainCount(|old(queue)|, maxConcurrent - old(active));
        && queue == old(queue)[k..]
        && started == old(started) + old(queue)[..k]
        && active == old(active) + k
        && inFlight == old(inFlight) + multiset(old(queue)[..k])
        && db.rows == StartAll(old(db.rows), old(queue)[..k])
      ensures admitted == old(admitted) && deletions == old(deletions) && db.audit == old(db.audit)
    {
      ghost var q0 := queue;
      ghost var n: nat := 0;
      while queue != [] && active < maxConcurrent
        invariant Sound()
        invariant n <= |q0| && queue == q0[n..]
        invariant active == old(active) + n
        invariant started == old(started) + q0[..n]
        invariant inFlight == old(inFlight) + multiset(q0[..n])
        invariant db.rows == StartAll(old(db.rows), q0[..n])
        invariant admitted == old(admitted) && db.audit == old(db.audit) && deletions == old(deletions)
        decreases |queue|
      {
        PrefixSnoc(q0, n);
        StartAllSnoc(old(db.rows), q0[..n], q0[n]);
        StartNext();
        n := n + 1;
      }
      assert n == DrainCount(|q0|, maxConcurrent - old(active));
    }

    /** createStore: admission, slug reclamation, insert, audit, then enqueue. The row
        returned is read back after the job was enqueued, so a job with no provisioner that
        started at once is already failed. */
    method CreateStore(req: NameValidator.StoreRequest, ip: Option<string>, id: StoreId, now: Time)
      returns (r: Result<Row, RequestError>)
      requires Valid()
      requires id !in db.rows
      modifies this, db
      ensures Valid()
      ensures deletions == old(deletions)
      ensures var slug := NameValidator.Slugify(req.name);
        var admission := Admission(CountActive(old(db.rows)), maxStores, slug, SlugOwner(old(db.rows), slug));
        && (r.Failure? <==> admission.Failure?)
        && (r.Failure? ==> r.error == admission.error)
      ensures r.Failure? ==>
        && db.rows == old(db.rows) && db.audit == old(db.audit)
        && active == old(active) && queue == old(queue) && admitted == old(admitted)
        && started == old(started) && inFlight == old(inFlight)
      ensures r.Success? ==>
        var slug := NameValidator.Slugify(req.name);
        var job := Job(id, slug, req.storeType, Namespace(slug), req.adminUser, req.adminPassword);
        var inserted := Inserted(Reclaimed(old(db.rows), slug), id, req.name, slug, req.storeType, Namespace(slug), now);
        && db.audit == old(db.audit) + [AuditEntry(id, Create, CreateDetails(req.name, slug, req.storeType), NormalizeIp(ip))]
        && admitted == old(admitted) + [job]
        && (if old(active) < maxConcurrent
            then active == old(active) + 1 && queue == old(queue) && started == old(started) + [job]
                 && inFlight == old(inFlight) + multiset{job} && db.rows == StartEffect(inserted, job)
            else active == old(active) && queue == old(queue) + [job] && started == old(started)
                 && inFlight == old(inFlight) && db.rows == inserted)
        && id in db.rows && r.value == db.rows[id]
        && r.value.status == (if old(active) < maxConcurrent && Provisioners.Lookup(req.storeType).None? then Failed else Provisioning)
        && CountActive(db.rows) <= maxStores
    {
      var count := CountActive(db.rows);
      var slug := NameValidator.Slugify(req.name);
      var existing := db.GetBySlug(slug);
      assert existing == SlugOwner(db.rows, slug);
      var admission := Admission(count, maxStores, slug, existing);
      if admission.Failure? {
        r := Failure(admission.error);
        return;
      }
      if existing.Some? {
        RemoveReleasableCount(db.rows, existing.value.id);
        db.DeleteRow(existing.value.id);
      }
      assert SlugFree(db.rows, slug);
      var namespace := Namespace(slug);
      InsertCount(db.rows, id, req.name, slug, req.storeType, namespace, now);
      var ok := db.Insert(id, req.name, slug, req.storeType, namespace, now);
      assert ok;
      db.AppendAudit(AuditEntry(id, Create, CreateDetails(req.name, slug, req.storeType), NormalizeIp(ip)));
      var job := Job(id, slug, req.storeType, namespace, req.adminUser, req.adminPassword);
      ghost var inserted := db.rows;
      FailingNeverAddsActive(inserted, id, Some(UnknownTypeMessage(req.storeType)));
      EnqueueProvision(job);
      r := Success(db.rows[id]);
    }

    /** The provisioner's answer for a job whose type has one: it is called, the row is
        stamped with the finish time and takes the answer's status, and the answer is
        audited. */
    method RecordOutcome(job: Job, install: CallOutcome, secrets: Provisioners.Secrets, now: Time)
      returns (calls: seq<Provisioners.Command>)
      requires db.Valid() && Provisioners.Lookup(job.storeType).Some?
      modifies db
      ensures db.Valid()
      ensures calls == if Provisioners.Lookup(job.storeType) == Some(Provisioners.WooCommerce)
        then [Provisioners.HelmInstall(Provisioners.ReleaseName(job.name), job.namespace, woo.Values(RequestOf(job), secrets))]
        else []
      ensures var outcome := JobOutcome(woo, job, install).value;
        && db.rows == Completed(old(db.rows), job.id, outcome, now)
        && db.audit == old(db.audit) + [CompletionEntry(job.id, outcome)]
    {
      calls := [];
      var outcome: Result<Provisioners.Urls, string>;
      if Provisioners.Lookup(job.storeType) == Some(Provisioners.WooCommerce) {
        calls, outcome := woo.Provision(RequestOf(job), secrets, install);
      } else {
        outcome := Provisioners.MedusaProvision(RequestOf(job));
      }
      db.SetProvisionFinished(job.id, now);
      match outcome {
        case Success(u) =>
          db.UpdateStatus(job.id, Ready, Some(u.storeUrl), Some(u.adminUrl), None);
        case Failure(m) =>
          db.UpdateStatus(job.id, Failed, None, None, Some(m));
      }
      db.AppendAudit(CompletionEntry(job.id, outcome));
      assert outcome == JobOutcome(woo, job, install).value;
    }

    /** The rest of provisionStore once the provisioner has answered, then the job's
        `finally`: the slot is released and the queue drained. A job with no provisioner
        only releases its slot. `calls` are the commands the provisioner issued. */
    method FinishProvision(job: Job, install: CallOutcome, secrets: Provisioners.Secrets, now: Time)
      returns (calls: seq<Provisioners.Command>)
      requires Valid() && job in inFlight
      modifies this, db
      ensures Valid()
      ensures calls == if Provisioners.Lookup(job.storeType) == Some(Provisioners.WooCommerce)
        then [Provisioners.HelmInstall(Provisioners.ReleaseName(job.name), job.namespace, woo.Values(RequestOf(job), secrets))]
        else []
      ensures var outcome := JobOutcome(woo, job, install);
        var rows1 := if outcome.Some? then Completed(old(db.rows), job.id, outcome.value, now) else old(db.rows);
        && db.audit == old(db.audit) + (if outcome.Some? then [CompletionEntry(job.id, outcome.value)] else [])
        && (if old(queue) == []
            then active == old(active) - 1 && queue == [] && started == old(started)
                 && inFlight == old(inFlight) - multiset{job} && db.rows == rows1
            else active == old(active) && queue == old(queue)[1..] && started == old(started) + [old(queue)[0]]
                 && inFlight == old(inFlight) - multiset{job} + multiset{old(queue)[0]}
                 && db.rows == StartEffect(rows1, old(queue)[0]))
      ensures admitted == old(admitted) && deletions == old(deletions)
    {
      calls := [];
      if Provisioners.Lookup(job.storeType).Some? {
        calls := RecordOutcome(job, install, secrets, now);
      }
      ReleaseSlot(job);
    }

    /** The job's `finally`: its slot is released and the queue drained, which starts at
        most the job at the front. */
    method ReleaseSlot(job: Job)
      requires Valid() && job in inFlight
      modifies this, db
      ensures Valid()
      ensures db.audit == old(db.audit)
      ensures if old(queue) == []
        then active == old(active) - 1 && queue == [] && started == old(started)
             && inFlight == old(inFlight) - multiset{job} && db.rows == old(db.rows)
        else active == old(active) && queue == old(queue)[1..] && started == old(started) + [old(queue)[0]]
             && inFlight == old(inFlight) - multiset{job} + multiset{old(queue)[0]}
             && db.rows == StartEffect(old(db.rows), old(queue)[0])
      ensures admitted == old(admitted) && deletions == old(deletions)
    {
      active := active - 1;
      inFlight := inFlight - multiset{job};
      ghost var q := queue;
      ghost var rows1 := db.rows;
      assert DrainCount(|q|, maxConcurrent - active) == if q == [] then 0 else 1;
      DrainQueue();
      if q != [] {
        assert q[..1] == [q[0]] && q[..1][..0] == [];
        assert StartAll(rows1, q[..1]) == StartEffect(rows1, q[0]);
      } else {
        assert q[..0] == [];
      }
    }

    /** getStore: a row that is missing or deleted is not found. */
    function GetStore(id: StoreId): (r: Result<Row, RequestError>)
      reads db
      ensures r.Failure? <==> id !in db.rows || db.rows[id].status == Deleted
      ensures r.Failure? ==> r.error == StoreNotFound
      ensures r.Success? ==> r.value == db.rows[id]
    {
      match db.Get(id)
      case None => Failure(StoreNotFound)
      case Some(row) => if row.status == Deleted then Failure(StoreNotFound) else Success(row)
    }

    /** deleteStore: mark the row 'deleting' (keeping its URLs) and audit it, then start
        performDeletion on the row as it was. With no provisioner for the type, the deletion
        completes before deleteStore returns. */
    method DeleteStore(id: StoreId, ip: Option<string>) returns (r: Result<string, RequestError>)
      requires Valid()
      modifies this, db
      ensures Valid()
      ensures r.Failure? <==> id !in old(db.rows) || old(db.rows)[id].status == Deleted
      ensures r.Failure? ==> r.error == StoreNotFound && db.rows == old(db.rows) && db.audit == old(db.audit)
                             && deletions == old(deletions)
      ensures r.Success? ==>
        var s := old(db.rows)[id];
        var marked := StatusSet(old(db.rows), id, Deleting, s.storeUrl, s.adminUrl, None);
        var startEntry := AuditEntry(id, DeleteStart, NameDetails(s.name), NormalizeIp(ip));
        && r.value == DeletionInitiated
        && (if Provisioners.Lookup(s.storeType).None?
            then db.rows == DeletionApplied(marked, id, Success(()))
                 && db.audit == old(db.audit) + [startEntry, DeletionEntry(s, Success(()))]
                 && deletions == old(deletions)
            else db.rows == marked && db.audit == old(db.audit) + [startEntry]
                 && deletions == old(deletions) + multiset{s})
      ensures active == old(active) && queue == old(queue) && admitted == old(admitted)
      ensures started == old(started) && inFlight == old(inFlight)
    {
      var found := db.Get(id);
      if found.None? || found.value.status == Deleted {
        r := Failure(StoreNotFound);
        return;
      }
      var store := found.value;
      db.UpdateStatus(id, Deleting, store.storeUrl, store.adminUrl, None);
      db.AppendAudit(AuditEntry(id, DeleteStart, NameDetails(store.name), NormalizeIp(ip)));
      if Provisioners.Lookup(store.storeType).None? {
        db.UpdateStatus(store.id, Deleted, None, None, None);
        db.AppendAudit(DeletionEntry(store, Success(())));
      } else {
        deletions := deletions + multiset{store};
      }
      r := Success(DeletionInitiated);
    }

    /** The rest of performDeletion once `deprovision` has answered: the row becomes
        'deleted', or 'failed' with the error. `calls` are the commands issued. */
    method CompleteDeletion(store: Row, uninstall: CallOutcome, deleteNamespace: CallOutcome)
      returns (calls: seq<Provisioners.Command>)
      requires Valid() && store in deletions
      modifies this, db
      ensures Valid()
      ensures calls == if Provisioners.Lookup(store.storeType) == Some(Provisioners.WooCommerce)
        then [Provisioners.HelmUninstall(Provisioners.UninstallRelease(store.slug, store.name), store.namespace),
              Provisioners.KubectlDeleteNamespace(store.namespace)]
        else []
      ensures db.rows == DeletionApplied(old(db.rows), store.id, DeletionOutcome(store))
      ensures db.audit == old(db.audit) + [DeletionEntry(store, DeletionOutcome(store))]
      ensures deletions == old(deletions) - multiset{store}
      ensures active == old(active) && queue == old(queue) && admitted == old(admitted)
      ensures started == old(started) && inFlight == old(inFlight)
    {
      calls := [];
      var outcome: Result<(), string>;
      if Provisioners.Lookup(store.storeType) == Some(Provisioners.WooCommerce) {
        calls, outcome := woo.Deprovision(store.slug, store.name, store.namespace, uninstall, deleteNamespace);
      } else {
        outcome := Provisioners.MedusaDeprovision(store.slug, store.name, store.namespace);
      }
      assert outcome == DeletionOutcome(store);
      match outcome {
        case Success(_) =>
          db.UpdateStatus(store.id, Deleted, None, None, None);
        case Failure(m) =>
          db.UpdateStatus(store.id, Failed, None, None, Some(DeletionFailedPrefix + m));
      }
      db.AppendAudit(DeletionEntry(store, outcome));
      deletions := deletions - multiset{store};
    }

    /** getAuditLog: the newest entries first, 50 of them unless told otherwise. */
    function GetAuditLog(limit: Option<int>): (r: seq<AuditEntry>)
      reads db
      ensures |r| <= |db.audit|
      ensures limit.None? ==> |r| == if |db.audit| < DefaultAuditLimit then |db.audit| else DefaultAuditLimit
      ensures limit.Some? ==> |r| == if 0 <= limit.value < |db.audit| then limit.value else |db.audit|
      ensures forall i :: 0 <= i < |r| ==> r[i] == db.audit[|db.audit| - 1 - i]
    {
      db.RecentAudit(if limit.Some? then limit.value else DefaultAuditLimit)
    }

    /** getMetrics, without the average provisioning time: the per-status counts add up to
        the total, and the scheduler figures keep the scheduler's bound. */
    function GetMetrics(): (m: Metrics)
      reads this, db
      requires Valid()
      ensures SchedulerInvariant(m.activeProvisions, m.queuedProvisions, m.maxConcurrentProvisions)
      ensures m.totalStores == CountOf(m.storesByStatus, Provisioning) + CountOf(m.storesByStatus, Ready)
                               + CountOf(m.storesByStatus, Failed) + CountOf(m.storesByStatus, Deleting)
      ensures m.totalFailures == CountOf(m.storesByStatus, Failed)
      ensures Deleted !in m.storesByStatus
      ensures m.totalStores == |ListedIds(db.rows)| && m.storesByStatus == CountsByStatus(db.rows)
      ensures m.activeProvisions == active && m.queuedProvisions == |queue|
      ensures m.maxConcurrentProvisions == maxConcurrent && m.maxStores == maxStores
    {
      CountsByStatusSum(db.rows);
      Metrics(|ListedIds(db.rows)|, CountsByStatus(db.rows), CountWithStatus(db.rows, Failed),
              active, |queue|, maxConcurrent, maxStores)
    }
  }
}
