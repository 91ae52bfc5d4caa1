# EpicEvents CRM: authorization and domain rules in Dafny

EpicEvents is a small CRM for an event company. Its employees belong to one of three departments: COMMERCIAL, SUPPORT or MANAGEMENT. They manage clients, the contracts signed with those clients, and the events organised under signed contracts.

This project models five parts of the application layer:

- the permission matrix;
- the entity rules (signing, payments, partial updates, support assignment);
- the repositories, as an id-keyed in-memory table;
- the domain services with their fixed order of gates;
- the three guard decorators and user administration.

Each source file becomes one module:

| module | source |
|---|---|
| `AuthModels` | `epicevents/app/auth/models.py` |
| `ClientModel`, `ContractModel`, `EventModel` | `epicevents/app/models/*.py` |
| `BaseRepository` | `epicevents/app/repositories/base.py` |
| `ClientRepo`, `ContractRepo`, `EventRepo` | `epicevents/app/repositories/*_repo.py` |
| `ClientService`, `ContractService`, `EventService` | `epicevents/app/services/*.py` |
| `Guards` | `epicevents/app/utils/permissions.py` |
| `AuthService` | `epicevents/app/auth/service.py` |

`Rows` holds the shared row machinery: keyword arguments, attribute access, `filter_by` clauses, `LIKE` matching and query results as lists. `Errors` and `Wrappers` hold the result types.

Modelling choices:

- **Tables.** A table is a `class Table<R>`. It holds `rows: map<int, R>` keyed by id and the next id to hand out. Rows are datatypes. A row mutator such as `sign_contract` is a function from the old row to the new one, and the repository writes the new row back.
- **Amounts and times.** Money is integer cents. Datetimes are integers. The current time is a parameter.
- **Keyword arguments.** `**kwargs` is a sequence of (name, value) pairs. A `Schema` (columns, fits, get, put) plays `hasattr`, `setattr` and `getattr`.
- **Query results.** An unordered query result is a sub-map of the table. The list returned by `.all()` satisfies `Enumerates`: every selected row exactly once, in an order the database chooses. Upcoming and past events come sorted.
- **Callers and errors.** The caller is an `Identity`, a user row with its id, as injected by the guards. Each exception message template is one `Failure` constructor, whose parameters fill in the message (for example `NotFound("Client", id)` for "Client with ID ... not found").
- **Hashing and tokens.** A `Hasher` stands for argon2. Its one assumed law is `Sound`: a password verifies against its own hash. A token is represented by the claims it carries.

Where the behaviour differs from the intuitive rule, the model follows the code:

- **`update_payment`.** The amount due becomes `max(0, total_amount - amount_paid)`. It is computed from the total, not by subtracting from the previous amount due (`ContractModel.PaymentIsNotDeducted`).
- **`update_contract`.** It passes `signed=False` through to `BaseRepository.update`, which only skips `None`. So a contract can be un-signed.
- **Unchecked amounts.** Neither `create_contract` nor `update_contract` checks that `amount_due` lies within `[0, total_amount]`.
- **`assign_support_contact`.** With the corrected lookup (see Findings), it checks that the target is SUPPORT but not that it is active.
- **`update_client`.** It goes through `BaseRepository.update`, not `Client.update`. So it does not refresh `updated_at`.
- **Falsy ids.** The id filters of the listings test truthiness, so an id of 0 means "no filter".
- **`get_current_user`.** It does not look at `is_active`, so a deactivated user's token keeps resolving.

## Model

| member | source | states |
|---|---|---|
| `AuthModels.HasPermission` | epicevents/app/auth/models.py:50-74 | a permission is granted only for one of the four action names and one of the four resource names |
| `AuthModels.MatrixIsGrid` | epicevents/app/auth/models.py:51-70 | for every department, action and resource, `has_permission` equals the documented 3 x 4 x 4 grid |
| `AuthModels.UnknownActionDenied` | epicevents/app/auth/models.py:72-74 | an action missing from the table is denied for every department (fails closed) |
| `AuthModels.UnknownResourceDenied` | epicevents/app/auth/models.py:72-74 | a resource missing from every entry is denied |
| `AuthModels.OnlyManagementDeletesUsers` | epicevents/app/auth/models.py:55-67 | delete is granted exactly to MANAGEMENT and exactly on `user` |
| `AuthModels.ReadRules` | epicevents/app/auth/models.py:56-68 | all departments read client, contract and event; only MANAGEMENT reads user |
| `AuthModels.CreateRules` | epicevents/app/auth/models.py:53-65 | SUPPORT creates nothing; COMMERCIAL creates exactly client and event; only MANAGEMENT creates contracts |
| `AuthModels.IsManagement` | epicevents/app/auth/models.py:38-40 | the MANAGEMENT test; true exactly for the users the matrix lets delete users |
| `AuthModels.IsCommercial` | epicevents/app/auth/models.py:42-44 | the COMMERCIAL test; true exactly for the users the matrix lets create clients |
| `AuthModels.IsSupport` | epicevents/app/auth/models.py:46-48 | the SUPPORT test; true exactly for the users the matrix does not let create events |
| `AuthModels.ExactlyOneDepartment` | epicevents/app/auth/models.py:38-48 | exactly one of `is_management`, `is_commercial`, `is_support` holds |
| `AuthModels.NewUser` | epicevents/app/auth/models.py:18-29 | a new user is active, has the given fields and both timestamps at `now` |
| `AuthModels.Department.Text` | epicevents/app/auth/models.py:12-15 | the enum value names its department back (`Department(d.value) == d`) |
| `ClientModel.NewClient` | epicevents/app/models/client.py:13-21 | a new client has the given fields, timestamps at `now`, and the given commercial |
| `ClientModel.NewClientHasNoCommercial` | epicevents/app/models/client.py:21 | a client built without a commercial has none |
| `ClientModel.Update` | epicevents/app/models/client.py:29-33 | the kwargs loop, then `updated_at == now`; every other column holds the last non-`None` value given for it, else its old value |
| `ClientModel.ClientSchemaLawful` | epicevents/app/models/client.py:13-21 | attribute access on a client is lawful (read-back, no other column touched, ill-fitting values ignored) |
| `ContractModel.NewContract` | epicevents/app/models/contract.py:15-25 | a new contract has the given fields and the given `signed`, false by default |
| `ContractModel.NewContractIsUnsigned` | epicevents/app/models/contract.py:19 | a contract built without `signed` is unsigned |
| `ContractModel.Sign` | epicevents/app/models/contract.py:36-37 | after signing, `signed` is true whatever it was; nothing else changes |
| `ContractModel.UpdatePayment` | epicevents/app/models/contract.py:39-40 | the new amount due is never negative, is 0 or `total - paid`, is at least `total - paid`; only `amount_due` changes |
| `ContractModel.AmountPaid` | epicevents/app/models/contract.py:32-34 | `amount_paid` plus `amount_due` is the total |
| `ContractModel.AmountPaidAfterPayment` | epicevents/app/models/contract.py:32-40 | after a payment, `amount_paid == min(paid, total)` and `amount_paid + amount_due == total` |
| `ContractModel.PaymentIgnoresPreviousDue` | epicevents/app/models/contract.py:40 | two contracts with the same total end with the same amount due whatever they owed |
| `ContractModel.LatestPaymentWins` | epicevents/app/models/contract.py:40 | a second `update_payment` overrides the first |
| `ContractModel.PaymentKeepsDueWithinTotal` | epicevents/app/models/contract.py:40 | with a non-negative total and payment, `0 <= amount_due <= total` afterwards |
| `ContractModel.PaymentIsNotDeducted` | epicevents/app/models/contract.py:40 | paying 4000 on a 10000 contract owing 6000 leaves 6000 due, not 2000 |
| `ContractModel.ContractSchemaLawful` | epicevents/app/models/contract.py:15-25 | attribute access on a contract is lawful |
| `EventModel.NewEvent` | epicevents/app/models/event.py:14-25 | a new event has the given fields and a support contact only if one is given |
| `EventModel.NewEventHasNoSupport` | epicevents/app/models/event.py:25 | a new event has no support contact until one is assigned |
| `EventModel.AssignSupport` | epicevents/app/models/event.py:43-44 | the support contact becomes `u`; no other field changes |
| `EventModel.EventClient` | epicevents/app/models/event.py:28-32 | the client is present exactly when the contract and its client resolve, and is then the contract's client |
| `EventModel.ClientContact` | epicevents/app/models/event.py:34-38 | `None` exactly when there is no client, otherwise `full_name - email - phone` |
| `EventModel.EventSchemaLawful` | epicevents/app/models/event.py:14-25 | attribute access on an event is lawful |
| `Rows.SetAttrs` | epicevents/app/repositories/base.py:34-36 | the kwargs loop computes `ApplyKwargs`, pair after pair |
| `Rows.ApplyKwargsFieldwise` | epicevents/app/repositories/base.py:34-36 | after the loop each column holds the last non-`None` value given for it; columns given only `None` keep their value |
| `Rows.OnlyApplicablePairsMatter` | epicevents/app/repositories/base.py:35 | keys that are not attributes, and `None` values, make no difference |
| `Rows.ConditionsAreKnownPairs` | epicevents/app/repositories/base.py:58-60 | `filter_by` adds a clause for exactly the pairs whose key is a column |
| `Rows.ContainsIffSubstring` | epicevents/app/repositories/client_repo.py:31 | `.contains(q)` holds exactly when `q` occurs in the text at some position |
| `Rows.ListOf` | epicevents/app/repositories/base.py:26-27 | `.all()` lists every selected row exactly once |
| `Rows.OrderedBy` | epicevents/app/repositories/event_repo.py:26-29 | an `ORDER BY` result lists every selected row once, keys non-decreasing |
| `Rows.LeastKeyExists` | epicevents/app/repositories/event_repo.py:26-29 | a non-empty selection has a row with least sort key |
| `BaseRepository.Table.constructor` | epicevents/app/repositories/base.py:10-12 | a new repository starts with an empty table |
| `BaseRepository.Table.Create` | epicevents/app/repositories/base.py:14-19 | the row is stored under a fresh id, `get_by_id` of it returns the row, the count grows by one |
| `BaseRepository.Table.GetById` | epicevents/app/repositories/base.py:21-22 | `Some` exactly for a stored id, with its row; `None` for an absent one |
| `BaseRepository.Table.NoRowZero` | epicevents/app/repositories/base.py:21-22 | id 0 never names a row, so a falsy id finds nothing |
| `BaseRepository.Table.GetAll` | epicevents/app/repositories/base.py:24-27 | a page of `min(limit, rows - skip)` distinct stored rows; at most `limit` |
| `BaseRepository.Table.Update` | epicevents/app/repositories/base.py:29-41 | absent id: `None`, table unchanged; present: that row only is replaced by the kwargs loop's result, column by column as `ApplyKwargsFieldwise` says |
| `BaseRepository.Table.Delete` | epicevents/app/repositories/base.py:43-50 | true exactly for a present id, which is then absent; count drops by one; otherwise nothing changes |
| `BaseRepository.Table.Count` | epicevents/app/repositories/base.py:52-54 | the number of stored ids; 0 exactly for an empty table |
| `BaseRepository.Table.FilterBy` | epicevents/app/repositories/base.py:56-63 | exactly the rows whose known columns equal the given values, each once |
| `BaseRepository.Table.Save` | epicevents/app/repositories/contract_repo.py:31-34 | writing back a fetched row replaces that row only |
| `BaseRepository.UnknownKeysIgnored` | epicevents/app/repositories/base.py:59 | pairs whose key is not a column do not change `filter_by`'s result |
| `ClientRepo.GetByEmail` | epicevents/app/repositories/client_repo.py:21-23 | `None` exactly when no client has the email; otherwise a stored client with that email |
| `ClientRepo.ByCommercial` | epicevents/app/repositories/client_repo.py:25-27 | exactly the clients whose commercial is `c` |
| `ClientRepo.ByCommercialIsFilter` | epicevents/app/repositories/client_repo.py:25-27 | it equals `filter_by(commercial_id=c)` |
| `ClientRepo.SearchByName` | epicevents/app/repositories/client_repo.py:29-33 | only stored clients are returned |
| `ClientRepo.SearchByNameIsSubstring` | epicevents/app/repositories/client_repo.py:29-33 | a client is found exactly when `q` is a substring of its full name or company name |
| `ClientRepo.EmptySearchFindsAll` | epicevents/app/repositories/client_repo.py:31 | the empty query matches every client |
| `ClientRepo.WithoutCommercial` | epicevents/app/repositories/client_repo.py:35-37 | exactly the clients without a commercial |
| `ClientRepo.WithoutCommercialIsFilter` | epicevents/app/repositories/client_repo.py:36 | it equals `filter_by(commercial_id=None)` |
| `ClientRepo.CommercialPartition` | epicevents/app/repositories/client_repo.py:25-37 | a client is either without commercial or in its commercial's list, never both |
| `ClientRepo.AssignCommercial` | epicevents/app/repositories/client_repo.py:39-46 | absent id: `None`, no change; otherwise only that client's commercial becomes `c` |
| `ContractRepo.ByClient` | epicevents/app/repositories/contract_repo.py:12-14 | exactly the contracts of client `k` |
| `ContractRepo.ByClientIsFilter` | epicevents/app/repositories/contract_repo.py:12-14 | it equals `filter_by(client_id=k)` |
| `ContractRepo.ByCommercial` | epicevents/app/repositories/contract_repo.py:16-18 | exactly the contracts of commercial `c` |
| `ContractRepo.ByCommercialIsFilter` | epicevents/app/repositories/contract_repo.py:16-18 | it equals `filter_by(commercial_id=c)` |
| `ContractRepo.Unsigned` | epicevents/app/repositories/contract_repo.py:20-22 | exactly the contracts with `signed == false` |
| `ContractRepo.UnsignedIsFilter` | epicevents/app/repositories/contract_repo.py:20-22 | it equals `filter_by(signed=False)` |
| `ContractRepo.Unpaid` | epicevents/app/repositories/contract_repo.py:24-26 | exactly the contracts with `amount_due > 0` |
| `ContractRepo.PaymentSettles` | epicevents/app/repositories/contract_repo.py:24-26 | after `update_payment(p)` a contract is off the unpaid list exactly when `p >= total` |
| `ContractRepo.SignContract` | epicevents/app/repositories/contract_repo.py:28-35 | absent id: `None`, no change; otherwise that contract only is signed |
| `ContractRepo.UpdatePaymentOf` | epicevents/app/repositories/contract_repo.py:37-44 | absent id: `None`, no change; otherwise `Contract.update_payment(p)` on that row only |
| `ContractRepo.WithEvents` | epicevents/app/repositories/contract_repo.py:46-50 | the distinct contracts of the outer join, all of them stored contracts |
| `ContractRepo.WithEventsIsEveryContract` | epicevents/app/repositories/contract_repo.py:49 | because the join is outer, every contract is returned, with events or not |
| `EventRepo.ByContract` | epicevents/app/repositories/event_repo.py:12-14 | exactly the events of contract `k` |
| `EventRepo.ByContractIsFilter` | epicevents/app/repositories/event_repo.py:12-14 | it equals `filter_by(contract_id=k)` |
| `EventRepo.BySupportContact` | epicevents/app/repositories/event_repo.py:16-18 | exactly the events assigned to `u` |
| `EventRepo.BySupportContactIsFilter` | epicevents/app/repositories/event_repo.py:16-18 | it equals `filter_by(support_contact_id=u)` |
| `EventRepo.WithoutSupport` | epicevents/app/repositories/event_repo.py:20-22 | exactly the events without a support contact |
| `EventRepo.AssignmentMovesEvent` | epicevents/app/repositories/event_repo.py:16-22 | after assignment the event leaves the without-support list and is in the assignee's |
| `EventRepo.StartingAfter` | epicevents/app/repositories/event_repo.py:27 | exactly the events with `start > now` |
| `EventRepo.EndedBefore` | epicevents/app/repositories/event_repo.py:34 | exactly the events with `end < now` |
| `EventRepo.Upcoming` | epicevents/app/repositories/event_repo.py:24-29 | every event with `start > now`, once each, ascending by start |
| `EventRepo.Past` | epicevents/app/repositories/event_repo.py:31-36 | every event with `end < now`, once each, descending by end |
| `EventRepo.InDateRange` | epicevents/app/repositories/event_repo.py:38-42 | exactly the events with `start >= s` and `end <= e` |
| `EventRepo.WiderRangeKeepsEvents` | epicevents/app/repositories/event_repo.py:38-42 | widening the range never loses an event |
| `EventRepo.SearchByLocation` | epicevents/app/repositories/event_repo.py:53-55 | only stored events are returned |
| `EventRepo.SearchByLocationIsSubstring` | epicevents/app/repositories/event_repo.py:53-55 | an event is found exactly when `q` is a substring of its location |
| `EventRepo.AssignSupportContact` | epicevents/app/repositories/event_repo.py:44-51 | absent id: `None`, no change; otherwise `assign_support(u)` on that row only |
| `ClientService.CreateClient` | epicevents/app/services/client_service.py:10-35 | no create-client permission: refused, nothing read or stored; email already held: refused, unchanged; otherwise exactly one new client with the given email and commercial |
| `ClientService.ClientAfterUpdate` | epicevents/app/services/client_service.py:65-75 | given fields replace old ones; `commercial_id` only for MANAGEMENT; timestamps untouched |
| `ClientService.ClientUpdateData` | epicevents/app/services/client_service.py:65-75 | the `update_data` dict, run through the kwargs loop, yields `ClientAfterUpdate` |
| `ClientService.UpdateClient` | epicevents/app/services/client_service.py:38-78 | in order: not found; COMMERCIAL non-owner refused; SUPPORT refused; a new non-empty email already in use refused (same email skips the check); else the client becomes `ClientAfterUpdate` |
| `ClientService.GetClient` | epicevents/app/services/client_service.py:81-87 | never refused; `Some` exactly for a stored id |
| `ClientService.ListClients` | epicevents/app/services/client_service.py:90-104 | a truthy filter id picks that commercial's clients, else a COMMERCIAL caller's own, else the first page of all |
| `ClientService.SearchClients` | epicevents/app/services/client_service.py:107-113 | never refused; every client matching the name search, once each |
| `ContractService.CreateContract` | epicevents/app/services/contract_service.py:13-38 | non-MANAGEMENT refused before the lookup; absent client: not found; otherwise one new unsigned contract |
| `ContractService.OwnershipRefusal` | epicevents/app/services/contract_service.py:55-59 | passes exactly MANAGEMENT and the owning COMMERCIAL; COMMERCIAL non-owners get "only ... your", SUPPORT gets "no permission" |
| `ContractService.ContractAfterUpdate` | epicevents/app/services/contract_service.py:61-69 | given fields replace old ones, `signed=False` included; client, commercial and creation time untouched |
| `ContractService.ContractUpdateData` | epicevents/app/services/contract_service.py:61-69 | the `update_data` dict, run through the kwargs loop, yields `ContractAfterUpdate` |
| `ContractService.UpdateContract` | epicevents/app/services/contract_service.py:41-70 | not found, then ownership; otherwise the contract becomes `ContractAfterUpdate`; failures change nothing |
| `ContractService.SignContract` | epicevents/app/services/contract_service.py:73-92 | not found, then ownership, then already signed; otherwise signed, so a second call fails with "already signed" |
| `ContractService.UpdatePayment` | epicevents/app/services/contract_service.py:95-109 | not found, then ownership; otherwise `amount_due := max(0, total - p)` on that contract |
| `ContractService.GetContract` | epicevents/app/services/contract_service.py:112-118 | never refused; `Some` exactly for a stored id |
| `ContractService.ListContracts` | epicevents/app/services/contract_service.py:121-142 | unsigned only, unpaid only, truthy client id, COMMERCIAL's own, first page of all: the first that applies |
| `EventService.CreateEvent` | epicevents/app/services/event_service.py:12-49 | SUPPORT refused before the lookup; then not found; then unsigned; then COMMERCIAL non-owner; otherwise one new event without support |
| `EventService.EventAfterUpdate` | epicevents/app/services/event_service.py:75-87 | given fields replace old ones; contract and support contact untouched |
| `EventService.EventUpdateData` | epicevents/app/services/event_service.py:75-87 | the `update_data` dict, run through the kwargs loop, yields `EventAfterUpdate` |
| `EventService.UpdateEvent` | epicevents/app/services/event_service.py:52-90 | not found; SUPPORT not assigned refused; COMMERCIAL refused; otherwise the event becomes `EventAfterUpdate` |
| `EventService.SupportTargetAsWritten` | epicevents/app/services/event_service.py:100 | resolving the target through the token decoder finds nobody, whatever the id |
| `EventService.SupportTarget` | epicevents/app/services/event_service.py:100 | the lookup by id: `Some` exactly for a stored user id, with that user |
| `EventService.AsWrittenRejectsEverySupportUser` | epicevents/app/services/event_service.py:100-102 | an existing SUPPORT user is rejected as written and accepted by the lookup |
| `EventService.AssignSupportContact` | epicevents/app/services/event_service.py:93-110 | non-MANAGEMENT refused first; then a target that is absent or not SUPPORT; then an absent event; otherwise only that event's contact is set (with the corrected lookup; see Findings) |
| `EventService.GetEvent` | epicevents/app/services/event_service.py:113-119 | never refused; `Some` exactly for a stored id |
| `EventService.ListEvents` | epicevents/app/services/event_service.py:122-146 | without support, upcoming (sorted), past (sorted), truthy contract id, SUPPORT's own, first page of all: the first that applies |
| `EventService.SearchEventsByLocation` | epicevents/app/services/event_service.py:149-155 | never refused; every event matching the location search, once each |
| `Guards.Refusal` | epicevents/app/utils/permissions.py:191-241 | no user: "authentication required" for every guard; otherwise the department or permission test decides; every refusal is a `PermissionError` |
| `Guards.Guarded` | epicevents/app/utils/permissions.py:191-241 | if no guard refuses, the body runs with the user and its result is returned unchanged; otherwise the first refusing guard's error |
| `Guards.NoUserNoCall` | epicevents/app/utils/permissions.py:195-196 | without a user any stack fails with "authentication required" |
| `Guards.GuardedFailsOnlyByRefusal` | epicevents/app/utils/permissions.py:208-237 | when some guard refuses, the call fails with a permission error |
| `Guards.ManagementPassesFullStack` | epicevents/app/utils/permissions.py:203-241 | a MANAGEMENT user passes auth, department MANAGEMENT and ("create", "user"), and the body runs |
| `Guards.OtherDepartmentsStopAtDepartment` | epicevents/app/utils/permissions.py:211-215 | any other user is stopped at the department test |
| `AuthService.CreateUser` | epicevents/app/auth/service.py:11-37 | a user sharing the email or the employee id: refused, nothing stored; otherwise one new active user with the given department whose password verifies |
| `AuthService.TokenFor` | epicevents/app/auth/service.py:52-57 | the token's claims name the user's id, email, department and employee id |
| `AuthService.Authenticate` | epicevents/app/auth/service.py:40-59 | `None` for an unknown email, an inactive user or a wrong password; a token only for an active user whose password verifies, and it resolves back to that user; with unique emails, exactly then |
| `AuthService.GetCurrentUser` | epicevents/app/auth/service.py:62-72 | a user exactly when the token decodes, its id is truthy, and a user has that id |
| `AuthService.InactiveUserStillResolves` | epicevents/app/auth/service.py:71-72 | a deactivated user's token still resolves |
| `AuthService.UpdateUser` | epicevents/app/auth/service.py:75-112 | absent id: "User not found"; otherwise name, email and department change only when truthy, `is_active` whenever given |
| `AuthService.ChangePassword` | epicevents/app/auth/service.py:115-124 | false exactly for an absent id; otherwise only the hash changes and the new password verifies |
| `AuthService.DeleteUser` | epicevents/app/auth/service.py:127-135 | true exactly for a present id, which is then gone and whose clients, contracts and events are unlinked; false and nothing changes otherwise |
| `AuthService.UnlinkClients` | epicevents/app/auth/models.py:31 | deleting a user sets `commercial_id` to NULL on exactly the clients that named it; no other column or client changes |
| `AuthService.UnlinkContracts` | epicevents/app/auth/models.py:32 | the same for `contracts.commercial_id` |
| `AuthService.UnlinkEvents` | epicevents/app/auth/models.py:33 | the same for `events.support_contact_id` |
| `AuthService.UnlinkedRowsAreOrphans` | epicevents/app/auth/models.py:31-33 | after deletion no client, contract or event refers to the user, and its former clients and events are listed as unowned and unassigned |

## Left out

- Process-level concerns are not modelled: the CLI and `init_db.py` (console I/O), logging and Sentry (the audit log call in signing is a no-op), the database engine, sessions and transactions, and configuration.
- Hashing and tokens are abstract. Argon2 is a `Hasher` whose only law is `Sound`. JWT encoding, signing, expiry and the token file are not modelled: a token is its claims.
- Uniqueness and foreign keys enforced only by SQLite are not modelled, for example a client's commercial must be a user. The model checks uniqueness only where a service checks it. Rollback on a failed commit is not modelled.
- `BaseRepository.Table.Delete` always succeeds for a present id. In the source, deleting a client that still has contracts, or a contract that still has events, fails: the ORM sets the children's NOT NULL `client_id` or `contract_id` to NULL, SQLite raises an integrity error, and the session rolls back. The model returns true and leaves those children pointing at the deleted row. No service deletes clients or contracts.
- Concurrency is not modelled, including the lost-update race between two payments on one contract.
- Rows are values: a mutator computes the new row and the repository writes it back. Aliasing between ORM instances fetched twice in one session, and the session cache, are not modelled.
- `Rows.SetAttr`: `hasattr` in the source is also true for `id`, relationships and methods, and `setattr` stores values of any type. The model treats only columns as attributes and ignores values that a column cannot hold.
- `ClientRepo.SearchByName`, `EventRepo.SearchByLocation` and `Rows.ContainsIffSubstring` model `.contains(q)` as a case-sensitive substring test. Under SQLite, `LIKE` ignores ASCII case, and `%` and `_` in the query act as wildcards.
- `ContractModel.UpdatePayment` uses integer cents. The source uses 2-decimal `Decimal` with at most 10 digits, and the digit limit is not modelled.
- `BaseRepository.Table.GetAll` takes natural numbers, so a negative `skip` or `limit` is outside the model. It states which page size comes back, not which rows: the row order is the database's.
- `ClientRepo.GetByEmail` and `AuthService.Authenticate` model `.first()` as a choice of any matching row, because no order is given.
- `AuthService.GetCurrentUser` takes the decoded claims. A payload decoded without a `user_id` key is represented by id 0, which the source also treats as missing.
- `ClientModel.Update`: `updated_at` becomes `now`, but the model does not constrain the clock, so "later than before" holds only when the clock moves forward.
- `EventRepo.Upcoming` and `EventRepo.Past` take `datetime.utcnow()` as the parameter `now`, and the order of tied dates is left to the database.
- The CLI-only rule that users cannot delete themselves (`epicevents/cli/user_commands.py`) is not part of this model.
- The session-bound user proxies in `epicevents/app/utils/permissions.py` (lines 9-188) are not modelled. The logged-in user is an `Option<Identity>` passed in.
- `Guards.Guarded` passes the user as its own argument. Overwriting a `current_user` the caller already passed is not modelled.

## Findings

| source | as written | input that shows it | evidently intended | confidence | as-written member | corrected member |
|---|---|---|---|---|---|---|
| epicevents/app/services/event_service.py:100-102 | the support user is resolved by passing the integer id to `AuthService.get_current_user`, which expects a token string; the JWT library refuses a non-string token, so no user is found and the call always fails with "Invalid support contact ID" | a MANAGEMENT caller, an existing event, and user id 2 of an existing SUPPORT user (`EventService.AsWrittenRejectsEverySupportUser`) | look the user up by id in the `users` table | high (relies on the JWT library rejecting a non-string token), not executed | `EventService.SupportTargetAsWritten` | `EventService.SupportTarget` |
