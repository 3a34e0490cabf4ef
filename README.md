# Store provisioning orchestrator — a Dafny model

This project models the backend core of a small self-service platform that creates and tears down
"stores": a WooCommerce (or, in name only, MedusaJS) shop deployed with helm into its own
Kubernetes namespace. The modelled core:

- the SQLite `stores` and `audit_log` tables, including the start-up migrations and the sweep of
  stale provisioning rows (`backend/src/database/db.js`);
- slug derivation and the request schema (`backend/src/utils/nameValidator.js`);
- the two provisioners (`backend/src/services/woocommerceProvisioner.js`,
  `backend/src/services/medusaProvisioner.js`);
- the orchestrator (`backend/src/services/storeService.js`). It covers admission with its cap and
  slug checks, slug reclamation, and the bounded FIFO scheduler built on `activeProvisions` and
  `provisionQueue`. It also covers asynchronous completion, deletion, and the queries.

Files, one module each:

- `values.dfy` (`Values`): Option, Result, the outcome of an external call, and decimal rendering.
- `name_validator.dfy` (`NameValidator`): the slug pipeline stage by stage, slug shape predicates, and the Joi schema as a function.
- `store_db.dfy` (`StoreDb`): rows and audit entries. The class `StoreTable` has one method per updating statement, each specified by a function of the old rows. Its lookups are functions (`Get`, `Listed`, `RecentAudit`), and the counting queries (`countActiveStores`, `countByStatus`, `countTotal`, `countFailed`) are functions at module level. The file also holds the migrations and `InitializeDatabase`.
- `provisioners.dfy` (`Provisioners`): the registry lookup and the class `WooCommerceProvisioner`. The class's configuration is `const` fields, its URLs and chart values are functions, and `Provision` and `Deprovision` are methods that return the commands they issue. The file also holds the Medusa provisioner.
- `store_service.dfy` (`StoreService`): the class `Orchestrator`. It owns the table, the counter and the queue. Its ghost fields describe the in-flight jobs, the admission order and the pending deletions.

How time and asynchrony are modelled:

- Every `await` on a provisioner ends a method. What the source does when the provisioner answers is a separate method, `FinishProvision` or `CompleteDeletion`. That method takes the helm and kubectl outcomes as parameters.
- The scheduler invariant is part of `Orchestrator.Valid()` and holds between any two steps. It says `active <= maxConcurrent`, that a non-empty queue implies `active == maxConcurrent`, and that there is one slot per job in flight.
- The FIFO property is `admitted == started + queue`. Every method states how it extends `started` and `queue`. For example, `FinishProvision` starts exactly the head of the queue when there is one.

The model follows the code, with two exceptions: it derives slugs and rebuilds old tables with the corrected definitions of the two Findings below (see "## Left out" for what that changes). Behaviours of the code that a reader might not expect, and that the model keeps:

- Deletion does not go through the scheduler: `performDeletion` is called directly and takes no slot.
- A job whose type has no provisioner writes no audit entry and no finish time.
- The provisioner's `name` is the slug, not the display name.
- The admission cap is checked only on creation. Deleting a failed store puts it back into the count, so that count can exceed `MAX_STORES`; `StoreService.DeletingFailedStoreCountsAgain` states this.
- `slugify` promises a DNS-safe slug (backend/src/utils/nameValidator.js:18) within the Kubernetes length limit (:28). As written it can end in a hyphen and is not idempotent; see Findings.

## Model

| member | source | states |
|---|---|---|
| `Values.NatToString` | backend/src/services/storeService.js:71 | the decimal rendering of the cap in the error message is a non-empty digit string without a leading zero that denotes the number (`DecimalValue(s) == n`), a single digit exactly below 10 |
| `NameValidator.LowerAll` | backend/src/utils/nameValidator.js:23 | lower-casing keeps length and maps each character on its own |
| `NameValidator.SlugifyAsWrittenShape` | backend/src/utils/nameValidator.js:21-29 | slugify as written yields at most 53 characters and is no longer than the name. Its characters are only a-z, 0-9 and single hyphens, and it never starts with a hyphen. It ends with a letter or digit whenever it is shorter than 53. |
| `NameValidator.SlugifyAsWrittenSkipsCollapse` | backend/src/utils/nameValidator.js:25-27 | the collapse step never changes anything, because the replace step already merges every run of non-alphanumerics into one hyphen |
| `NameValidator.SlugTooShortIff` | backend/src/utils/nameValidator.js:21-29 | the slug is shorter than 2 exactly when the lower-cased name has fewer than 2 letters or digits (both for slugify as written and corrected) |
| `NameValidator.SlugifyAsWrittenNotIdempotent` | backend/src/utils/nameValidator.js:26-28 | 52 'a' followed by "-b" slugifies to a string ending in '-', and slugifying that again gives a different string |
| `NameValidator.SlugifyAsWritten` | backend/src/utils/nameValidator.js:21-29 | slugify as written, the five rewrites in order (ASCII input); the result never exceeds 53 characters |
| `NameValidator.Slugify` | backend/src/utils/nameValidator.js:21-29 | corrected slugify (trailing hyphen trimmed after the cut): differs from the as-written result only by that one hyphen |
| `NameValidator.SlugifyShape` | backend/src/utils/nameValidator.js:17-29 | the corrected slug is DNS-safe: only a-z, 0-9 and single interior hyphens, at most 53 characters. It equals the as-written slug unless that one ends in '-', in which case it is that slug minus the hyphen. |
| `NameValidator.SlugifyIdempotent` | backend/src/utils/nameValidator.js:17-29 | the corrected slugify is idempotent |
| `NameValidator.SlugifyExample` | backend/src/utils/nameValidator.js:19 | "My Awesome Store!" gives "my-awesome-store", both as written and corrected |
| `NameValidator.ValidateStoreInput` | backend/src/utils/nameValidator.js:3-15 | the schema accepts exactly these inputs: a 2..60-character string name; a type absent or woocommerce/medusa; an admin user absent or 3..30 characters of [A-Za-z0-9_-]; a password absent or 6..64 characters; and no other keys. Absent keys take the defaults woocommerce, admin and null; an accepted name is the input's name, and a present type, admin user or password passes through unchanged. |
| `NameValidator.NameErrorMessage` | backend/src/utils/nameValidator.js:5-11 | only "too short" and "too long" carry a custom message, "Store name must be at least 2 characters" and "Store name must be at most 60 characters"; the numbers in them are the schema's two length bounds |
| `NameValidator.ValidateStoreName` | backend/src/utils/nameValidator.js:31-34 | the name alone is accepted exactly when the schema's name rule accepts it, and "too short" and "too long" are reported exactly below 2 and above 60 characters |
| `NameValidator.SchemaAcceptsUnsluggableName` | backend/src/utils/nameValidator.js:3-11 | the schema accepts the name "!!", whose slug is empty, so the service's own slug check is needed |
| `StoreDb.CountsByStatus` | backend/src/services/storeService.js:43 | the per-status counts omit 'deleted' and statuses with no row, and each entry is that status's row count |
| `StoreDb.CountsByStatusSum` | backend/src/services/storeService.js:43-44 | the four per-status counts add up to the total of rows that are not deleted |
| `StoreDb.SweepProperties` | backend/src/database/db.js:92-95 | the sweep turns every provisioning row into failed with "Server restarted during provisioning". It leaves every other row (deleting ones included) as it was and leaves no provisioning row. It changes exactly the provisioning rows and keeps the table constraints. |
| `StoreDb.SweepFreesSlots` | backend/src/database/db.js:92-95 | the sweep lowers the capped count by the number of provisioning rows |
| `StoreDb.RemoveReleasableCount` | backend/src/services/storeService.js:91-94 | removing a deleted or failed row leaves the capped count unchanged |
| `StoreDb.InsertCount` | backend/src/services/storeService.js:20-23 | inserting a store raises the capped count by exactly one |
| `StoreDb.Newest` | backend/src/services/storeService.js:41 | the n most recent entries, newest first: the length is the smaller of n and the log size, and entry i is the i-th from the end |
| `StoreDb.StoreTable.constructor` | backend/src/database/db.js:21-46 | a table over rows that satisfy the primary key and the UNIQUE slug |
| `StoreDb.StoreTable.Get` | backend/src/services/storeService.js:30 | finds nothing exactly when no row has the id; otherwise that row, whose key is the id |
| `StoreDb.StoreTable.GetBySlug` | backend/src/services/storeService.js:31 | finds nothing exactly when no row holds the slug; otherwise the one row holding it |
| `StoreDb.StoreTable.Insert` | backend/src/services/storeService.js:20-23 | succeeds exactly when the id and the slug are both new. The row is then in 'provisioning' with no URLs and started now. On failure nothing changes. |
| `StoreDb.StoreTable.UpdateStatus` | backend/src/services/storeService.js:25-28 | sets status, URLs and error of the row; a missing id changes nothing |
| `StoreDb.StoreTable.SetProvisionFinished` | backend/src/services/storeService.js:53-55 | stamps the finish time of the row; a missing id changes nothing |
| `StoreDb.StoreTable.DeleteRow` | backend/src/services/storeService.js:34 | removes the row outright |
| `StoreDb.StoreTable.AppendAudit` | backend/src/services/storeService.js:36-39 | appends one entry; the rows do not change |
| `StoreDb.StoreTable.Sweep` | backend/src/database/db.js:92-99 | applies the sweep; the reported change count equals the rows it changed and the number of provisioning rows |
| `StoreDb.StoreTable.Listed` | backend/src/services/storeService.js:32 | holds exactly the rows whose status is not 'deleted' |
| `StoreDb.StoreTable.RecentAudit` | backend/src/services/storeService.js:41 | the newest `limit` entries, newest first; a negative limit returns every entry |
| `StoreDb.BackfillProperties` | backend/src/database/db.js:50-53 | after the backfill every row has a start time: its own if it had one, else its creation time. Nothing else changes. |
| `StoreDb.RebuildProperties` | backend/src/database/db.js:66-90 | the rebuild succeeds exactly when the coalesced slugs are unique. It keeps every key and field, replacing only a null slug by the name, and yields a table meeting its constraints. |
| `StoreDb.RebuildWithoutSlugColumn` | backend/src/database/db.js:57-90 | with no slugs and unique names (the older schema), the intended rebuild always succeeds and each slug is the row's name |
| `StoreDb.RebuiltAsWritten` | backend/src/database/db.js:85-87 | the rebuild as written: with no slug column in the old table it fails with "no such column: slug"; otherwise it is the intended rebuild |
| `StoreDb.RebuildAsWrittenFailsWithoutSlugColumn` | backend/src/database/db.js:85-87 | for a table with no slug column, the copy as written is refused, while the intended copy succeeds |
| `StoreDb.InitializeDatabase` | backend/src/database/db.js:48-99 | start-up fails exactly when a needed rebuild meets duplicate slugs. Otherwise the table is the backfilled, coalesced rows after the sweep, with the log unchanged. The reported count is the number of provisioning rows. |
| `Provisioners.Lookup` | backend/src/services/storeService.js:14-17 | "woocommerce" and "medusa" have a provisioner, and no other type does |
| `Provisioners.UninstallRelease` | backend/src/services/woocommerceProvisioner.js:50-51 | the release removed is "wc-" plus the slug, or plus the name when the slug is empty |
| `Provisioners.ReleaseRoundTrip` | backend/src/services/woocommerceProvisioner.js:16 | for a non-empty slug, the release removed is the release installed, and stripping "wc-" gives back the slug |
| `Provisioners.WooCommerceProvisioner.constructor` | backend/src/services/woocommerceProvisioner.js:10-13 | BASE_DOMAIN defaults to "127.0.0.1.nip.io" and STORE_PORT to "" when unset or empty |
| `Provisioners.WooCommerceProvisioner.PortSuffix` | backend/src/services/woocommerceProvisioner.js:24 | no suffix exactly when no port is configured; otherwise a colon and the port |
| `Provisioners.WooCommerceProvisioner.Values` | backend/src/services/woocommerceProvisioner.js:19-37 | the port defaults to 80 and the admin user to "admin"; the admin password falls back to a generated one. The admin e-mail is the user at the store domain; the database and its user are "wordpress"; the two database passwords are generated. |
| `Provisioners.WooCommerceProvisioner.Provision` | backend/src/services/woocommerceProvisioner.js:15-47 | issues exactly one `helm install` of "wc-<name>" with those values. It fails exactly when the install fails, with the install's message. On success it returns the store URL, and the admin URL is that URL plus "/wp-admin". |
| `Provisioners.WooCommerceProvisioner.Deprovision` | backend/src/services/woocommerceProvisioner.js:49-67 | always issues the helm uninstall and then the namespace delete, and always succeeds, whatever either returns |
| `Provisioners.WooCommerceProvisioner.StoreUrlNamesStore` | backend/src/services/woocommerceProvisioner.js:23-45 | for a name without a dot (every slug), the first host label of the store and admin URLs is the name |
| `Provisioners.MedusaProvision` | backend/src/services/medusaProvisioner.js:4-7 | always fails with "MedusaJS provisioning is not yet available. Coming soon!" |
| `Provisioners.MedusaDeprovision` | backend/src/services/medusaProvisioner.js:9-12 | always fails with "MedusaJS deprovisioning is not yet available." |
| `StoreService.NormalizeIp` | backend/src/services/storeService.js:57-61 | a present address stays present. A leading "::ffff:" is removed, and everything else is kept. |
| `StoreService.NormalizeIpStripsOnce` | backend/src/services/storeService.js:60 | the prefix is stripped once only: a doubled prefix leaves one |
| `StoreService.CapMessage` | backend/src/services/storeService.js:71 | the cap message is "Maximum number of stores (", the cap in decimal digits, then ") reached"; the digits between prefix and suffix are non-empty, have no leading zero, and denote the cap |
| `StoreService.ErrorMessage` | backend/src/services/storeService.js:71-86 | each rejection carries the source's message: the cap message, the 2-alphanumerics message, and the duplicate message quoting the holder's name; a missing store is "Store not found" (line 169) |
| `StoreService.StatusCode` | backend/src/services/storeService.js:70-172 | the cap and the duplicate are 409, a short slug is 400, and a missing store is 404 |
| `StoreService.Admission` | backend/src/services/storeService.js:68-94 | rejections come in order: the cap first, then a slug under 2 characters, then a live store holding the slug, whose name the error carries. A deleted or failed holder is named for removal. The request is admitted exactly when none of these rejections applies. |
| `StoreService.NamespaceShape` | backend/src/services/storeService.js:97 | with the corrected slug, the namespace is at most 59 characters of a-z, 0-9 and single hyphens, ending in a letter or digit |
| `StoreService.ValidatedTypeHasProvisioner` | backend/src/utils/nameValidator.js:12 | every type the schema accepts has a provisioner |
| `StoreService.KnownJobsStartSilently` | backend/src/services/storeService.js:134-139 | starting jobs of known types leaves the table unchanged |
| `StoreService.WooCommerceReadyIffInstalled` | backend/src/services/storeService.js:141-159 | for a name of slug characters (every as-written or corrected slug), a WooCommerce store becomes ready exactly when its install succeeds. Otherwise it fails with the install's message. Its finish time is stamped either way, and when ready its store URL names its slug. |
| `StoreService.MedusaStoreEndsFailed` | backend/src/services/storeService.js:141-159 | a Medusa store always ends failed, with the Medusa provisioner's message |
| `StoreService.LateProvisionOverwritesDeleting` | backend/src/services/storeService.js:150-151 | a provisioning that answers after deletion started overwrites 'deleting' with 'ready' |
| `StoreService.MedusaDeletionFails` | backend/src/services/storeService.js:195-207 | deleting a Medusa store always ends failed with "Deletion failed: " plus the Medusa message, and audits delete_failed |
| `StoreService.WooCommerceDeletionSucceeds` | backend/src/services/storeService.js:195-203 | deleting a WooCommerce store always ends deleted with no URLs, and audits delete_success by "system" |
| `StoreService.DeletingFailedStoreCountsAgain` | backend/src/services/storeService.js:33 | marking a failed store for deletion raises the capped count by one |
| `StoreService.FailingNeverAddsActive` | backend/src/services/storeService.js:33 | failing a row never raises the capped count |
| `StoreService.Orchestrator.constructor` | backend/src/services/storeService.js:8-12 | MAX_STORES defaults to 10 and MAX_CONCURRENT_PROVISIONS to 3. The scheduler starts empty, with nothing in flight. |
| `StoreService.Orchestrator.StartJob` | backend/src/services/storeService.js:134-139 | with no provisioner for the type, the row fails with "Unknown store type: <type>" and no audit entry; otherwise nothing changes yet |
| `StoreService.Orchestrator.EnqueueProvision` | backend/src/services/storeService.js:110-121 | with a free slot the job starts and takes it; otherwise it joins the back of the queue. The scheduler invariant is kept either way. |
| `StoreService.Orchestrator.StartNext` | backend/src/services/storeService.js:125-127 | one round of the drain: the job at the front leaves the queue, joins the started jobs and takes a slot; its start applies `StartEffect` and nothing else changes |
| `StoreService.Orchestrator.DrainQueue` | backend/src/services/storeService.js:123-132 | starts queued jobs from the front, as many as are queued up to the free slots, and restores the scheduler invariant |
| `StoreService.Orchestrator.CreateStore` | backend/src/services/storeService.js:67-108 | rejects exactly where `Admission` does, changing nothing. Otherwise it removes a released holder of the slug and inserts the row with namespace "store-<slug>". It audits the create with the normalized address and enqueues the job under the slug. It returns the row as read back: failed exactly when the type is unknown and the job started at once. Afterwards the capped count is within the cap. |
| `StoreService.Orchestrator.RecordOutcome` | backend/src/services/storeService.js:141-159 | for a type with a provisioner: the row gets the finish time, then 'ready' with the URLs or 'failed' with the provisioner's message, and exactly one provision_success or provision_failed entry is audited; the WooCommerce job's helm install is the call reported |
| `StoreService.Orchestrator.ReleaseSlot` | backend/src/services/storeService.js:127-130 | the job's `finally`: the slot is freed and, when jobs wait, exactly the head of the queue starts in it; the audit is untouched and the scheduler invariant is kept |
| `StoreService.Orchestrator.FinishProvision` | backend/src/services/storeService.js:113-116 | applies the provisioner's answer: the finish time, then ready or failed, then the audit entry (none for an unknown type). It then frees the slot and starts exactly the head of the queue if there is one. The WooCommerce job's helm install is the call reported. |
| `StoreService.Orchestrator.GetStore` | backend/src/services/storeService.js:166-174 | not found exactly when the row is missing or deleted; otherwise the row |
| `StoreService.Orchestrator.DeleteStore` | backend/src/services/storeService.js:176-193 | not found exactly when the row is missing or deleted, changing nothing. Otherwise the row is marked 'deleting' with its URLs kept, and delete_start is audited. With no provisioner the row reaches 'deleted' and delete_success is audited at once. The scheduler is untouched. |
| `StoreService.Orchestrator.CompleteDeletion` | backend/src/services/storeService.js:195-208 | applies the deprovision answer: 'deleted', or 'failed' with "Deletion failed: <message>". It then audits, and reports the helm uninstall and the namespace delete for WooCommerce. |
| `StoreService.Orchestrator.GetAuditLog` | backend/src/services/storeService.js:210-212 | newest entries first: the newest `limit` of them (all of them when the limit is negative or exceeds the log), and 50 (or all, if fewer) when no limit is given |
| `StoreService.Orchestrator.GetMetrics` | backend/src/services/storeService.js:214-230 | the total is the number of non-deleted rows and the per-status map is the table's GROUP BY; these add up, the failures are the failed count, the scheduler figures are the live counter, queue length and limit and satisfy the scheduler invariant, and the cap is MAX_STORES |

## Left out

- NameValidator.LowerAll: lower-casing is ASCII only. Full Unicode `toLowerCase`, NFD normalisation and the stripping of combining marks are not modelled, so an accented letter behaves as a non-alphanumeric character.
- NameValidator.ValidateStoreName: Joi counts the name's length in UTF-16 code units and the model counts characters, so a name of one character outside the Basic Multilingual Plane is too short here but accepted by the code, and 31 such characters are accepted here but too long for the code.
- NameValidator.ValidateStoreInput: Joi counts length in UTF-16 code units and the model counts characters. Joi's error texts are not modelled apart from the two custom name messages.
- StoreService.Orchestrator.CreateStore: derives the slug with the corrected `NameValidator.Slugify`, not the code's `slugify`. The two differ only when the as-written slug ends in '-' (a 53-character cut after a hyphen, such as 52 'a' followed by "-b"). There the code uses the slug with the hyphen and namespace "store-" plus that slug, so it admits such a store next to a live store holding the slug without the hyphen, where the model rejects it as a duplicate (409). Conversely, when a live store holds the code's own slug (52 'a' followed by '-'), the code rejects "a" × 52 + "-b" as a duplicate (409), while the model derives 52 'a' and admits it.
- StoreDb.InitializeDatabase: rebuilds with the corrected `StoreDb.Rebuilt`. On a table from before the slug column, with a unique name index, the code throws "no such column: slug" after the rename (the rows are left in stores_old). The model's start-up succeeds there. `StoreDb.RebuiltAsWritten` models the code's behaviour.
- StoreDb.RebuildProperties: states the corrected rebuild. The rebuild as written has the same properties only when the old table has a slug column; without one it always fails (`StoreDb.RebuildAsWrittenFailsWithoutSlugColumn`).
- StoreDb.StoreTable.Listed: returns a set; the `ORDER BY created_at DESC` order is not modelled.
- StoreDb.StoreTable.RecentAudit: assumes `created_at` order is insertion order; ties between equal timestamps are not modelled.
- StoreService.Orchestrator.GetMetrics: omits `avg_provision_duration_seconds`, because it is floating-point arithmetic on timestamps.
- Timestamps are a `now` parameter. `updated_at`, `provision_finished_at`'s column migration and the audit log's own id and time columns are not modelled.
- `uuidv4`, `generatePassword` and `parseInt` of the environment are parameters: a fresh id, the `Secrets`, and optional numbers.
- How helm builds its argument vector, timeouts and error text (`helmClient.js`), the dynamic `import` of child_process, and all logging are not modelled. A failed install's message is a parameter.
- Order of issued commands: helm and kubectl calls are reported when `FinishProvision` or `CompleteDeletion` applies their outcome, not when a job starts them, so the model does not capture how the commands of concurrent jobs interleave.
- Real asynchrony: an unknown-type job's `finally` really runs one microtask later, and the model runs it in the same `FinishProvision` step as the rest.
- The in-memory counter and queue do not survive a restart. The model's scheduler starts empty, and the sweep marks the jobs those structures lost as failed.
- Type strings naming `Object.prototype` members (such as "constructor"), which the JavaScript lookup would resolve to an inherited value. The schema never lets them through.
- SQL errors other than the UNIQUE slug conflict and the missing-column error of the rebuild. Detection of the schema generation (`PRAGMA table_info`/`index_list`) is done with booleans.
- The HTTP controller, middleware, rate limiter and dashboard are not part of this model.

## Findings

| source | as written | input that shows it | evidently intended | confidence | as-written member | corrected member |
|---|---|---|---|---|---|---|
| backend/src/utils/nameValidator.js:26-28 | hyphens are trimmed before the 53-character cut, so the cut can leave a trailing hyphen | a name of 52 'a' followed by "-b" gives 52 'a' and a '-' | a DNS-safe slug, and namespace "store-<slug>", that ends in a letter or digit; slugify idempotent | not executed | `NameValidator.SlugifyAsWrittenNotIdempotent` | `NameValidator.SlugifyIdempotent` |
| backend/src/database/db.js:85-87 | the rebuild's copy selects `slug` from the old table even when that table has no slug column, which SQLite refuses after the rename has been done | a table from before the slug column, with a unique name index and one row | copy every row with its name as slug | not executed | `StoreDb.RebuildAsWrittenFailsWithoutSlugColumn` | `StoreDb.RebuildWithoutSlugColumn` |

The corrected definitions are what the rest of the model uses, at the cost of the divergences listed under "## Left out":

- `CreateStore` derives slugs with `NameValidator.Slugify`.
- `InitializeDatabase` rebuilds with `StoreDb.Rebuilt`.
