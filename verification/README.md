# A Dafny model of the modules and filters

The repository keeps its own Ansible modules and filters. This project models the ones with
state machines or algorithms in them, and proves what they promise over whole runs:

- **The FreeIPA reconciliation engine** (`lib/python/ipa.py`) and the client classes for groups,
  access rules, users and services. A run turns the parameters and the server's reply into
  canonical form, computes a delta of scalars, values to add and values to remove, makes a queue
  of requests from it, split over the base request and a class's member requests, and posts the
  queue. The server is an object with scalars and attribute-value pairs that reads every request
  on its own terms (`IpaServer`).
- **Certificates** (`lib/modules/ipa_cert.py`), which use the same engine to request and revoke.
- **Docker networks** (`lib/modules/docker_network.py`), reconciled from a snapshot that goes stale.
- **Disk partitions** (`lib/modules/parted.py`): the two scripts of a run, the reader for parted's
  output, and the size formatter.
- **Two codecs**: path names as systemd unit names, and certificates in PEM form.

Imperative code is modelled as classes and methods with the source's fields and loops
(`IpaClient`, `EndToEnd`, `WrappedNames`, `CertClient`, `DockerManager`, `PartedMain`, and the methods of
`PartedReport`, `PartedSize`, `SystemdEscape` and `PemWrap`). Each method is proved equal to a
function of its inputs and the old state; the other modules prove the laws of these functions.
`dafny verify dfyconfig.toml` checks the whole.

## What the code does outside its promises

Each of these is proved, as the exact condition under which the promise fails.

- An object that exists but shows the client no attribute counts as existing and as absent at
  once. A run with an attribute to set then asks the server to add it again, which is refused
  (`Convergence.RefusedIff`); `absent` without attributes leaves it there (`Absence.AbsentRemoves`);
  `enabled` and `disabled` first give it members, and never touch it if there are none to give
  (`Theorems.EnableMachine`).
- `absent` with attributes creates a missing object (`Absence.AbsentAttributes`). It is not silent
  the second time if a scalar was named with its own default (`Absence.AbsentSecondRun`).
- A class with a default for an attribute can never remove an object: users and services
  (`Removal.WhoCanRemove`).
- An enable key that is given as a parameter is written by no run: only `enabled` and `disabled`
  switch (`Theorems.SwitchLeftAlone`).
- `disabled` on a missing object needs two runs (`Theorems.EnableMachine`).
- `enabled` and `disabled` are silent on an object at its goal only if the reply carries the enable
  key; without it every run posts the switch again, unless the reply then shows nothing at all
  (`HiddenKeys.SwitchedForEver`).
- In check mode removals, switches of the enable key and the requests of rows that do not set
  `changed` themselves go unreported (`Sequences.CheckModePrediction`).
- A `present` run for a certificate that is valid, with a revocation reason, asks for a new one
  every time (`CertRuns.PresentWithReason`). Without a reason the run after one that issued a
  certificate issues another exactly if the principal's name has a comma or a serial number was
  asked for that is not the one issued (`CertRuns.PresentIssuesOne`), and so do all runs after it
  (`CertRuns.NeverFoundNeverSilent`).
- A user's reply stands for the user exactly if no alias carries a realm of its own and the
  canonical name is bare or an alias as well (`Replies.UserRecovered`). Wrapped in a list, as the API
  wraps single values, the canonical name counts as an alias after every run. Runs of `exact` that do
  not want it and runs of `absent` that name it then ask for its removal for ever, whether or not
  the user has it (`WrappedNames.DroppedIff`, `WrappedNames.NextQueueEmptyIff`); and if it is wanted
  and not there it is never added (`WrappedNames.GoalUnlessOnlySeen`).
- A service has to be given by its canonical name: given without its realm, or by any name that is
  not among the principals, the run raises on every existing service; given by an alias, it misses
  that alias (`Replies.ServiceRecovered`).
- A Docker network: an empty list keeps the connected containers, although the documentation says
  that it disconnects them. `appends` loses the others when the network is created again, a
  container named twice is refused, containers given by id are refused the second time, an option
  that cannot be built removes the network and leaves none, and `aux_addresses` makes every run
  create the network again. `state: absent` disconnects containers without `force`, although the
  documentation asks for it.
- A partition: a label that is given is written by every run and destroys all partitions; a
  partition number that parted does not give is never there and every run makes one more; check
  mode reports flags that are set already. A bare number is refused as a size although `unit` is
  documented to interpret it.
- A size formatted in an explicit unit is never scaled to it: the number is in bytes.
- Every escaped character from 0x10 on, those above 0xFF included, gets the name of another path
  that begins with a character below 0x10 (`SystemdEscape.HexCollision`).

## Model

| member | source | states |
|---|---|---|
| Canonical.CleanShaped | lib/python/ipa.py:277-307 | cleaned lists are nonempty lists, cleaned scalars single values, and no foreign key is left |
| Canonical.CleanKeeps | lib/python/ipa.py:277-307 | a value of its parameter's type is kept as it is |
| Canonical.CleanEmptyOrRaises | lib/python/ipa.py:277-307 | which values count as not given, and which raise |
| Canonical.CleanIdempotent | lib/python/ipa.py:277-307 | cleaning what is clean changes nothing |
| Canonical.CleanForgetsSpelling | lib/python/ipa.py:277-307 | list-wrapped scalars, unwrapped lists, `TRUE`/`FALSE` and digit strings clean to the same dict |
| Requests.RespelledParams | lib/python/ipa.py:394-400 | respelling the parameters leaves a run's wanted state as it was |
| Requests.CanonicalWanted | lib/python/ipa.py:385-400 | canonical parameters are typed, hold every default under `exact`, and the enable key the state asks for |
| Requests.ParamsKept | lib/python/ipa.py:385-400 | an attribute is among the canonical parameters exactly if it was given, has a default under `exact`, or is the switch; a value that was given comes before any default, the switch before both |
| Requests.WantedIs | lib/python/ipa.py:385-400 | the same of the wanted state: given values as they are, lists as sets, defaults for what was not given, and nothing else |
| Strings.ParseIntIff | lib/python/ipa.py:301-304 | the texts that read as an integer: one sign at most, digits, blanks around |
| Canonical.CertForms | lib/modules/ipa_user.py:249-262 | what becomes of a user's certificates in every form of the reply, and which raise |
| Canonical.PrincipalForms | lib/modules/ipa_user.py:266-285 | in which forms a user's principals raise |
| Canonical.AllRenamed | lib/modules/ipa_caacl.py:148-164 | renaming reply keys one by one in place, in any order, gives each short name the value of a key that shortens to it, of a long one if there is any; without clashes it renames them all |
| Changes.DeltaPairs | lib/python/ipa.py:329-348 | the lists of a delta are the set differences and intersections of attribute-value pairs that the state calls for |
| Changes.DeltaExactAndMinimal | lib/python/ipa.py:321-348 | the delta adds only what is missing, removes only what is there, reaches the goal, and is contained in every edit that reaches it |
| Changes.DeltaNonempty | lib/python/ipa.py:321-327 | an attribute is in the delta only with values to add or remove |
| Rewrite.RewriteLossless | lib/python/ipa.py:464-478 | reading `key=value` lines at the first `=` gives back exactly the dict of value sets they were made from, scalars untouched |
| Rewrite.RewriteConservesCount | lib/python/ipa.py:464-478 | there are as many lines as values |
| Rewrite.TextIs | lib/python/ipa.py:471-474 | how values are written: strings as they are, numbers so that they can be read again |
| Effect.BaseReadBack | lib/python/ipa.py:484-510 | the server reads out of an add or mod request exactly the base part of the delta |
| Effect.RouteReadBack | lib/modules/ipa_caacl.py:166-208 | the server reads out of a member request exactly the part of the delta that its row is for |
| Effect.RoutesEffect | lib/modules/ipa_service.py:210-258 | on an existing object all member requests are accepted and carry out the routed part of the delta |
| QueueEffect.RunEffect | lib/python/ipa.py:563-592 | a run is refused with nothing changed, or carries out the whole delta |
| Convergence.RefusedIff | lib/python/ipa.py:498-510 | a run is refused exactly if it has attributes for an object that exists but shows none |
| Convergence.RunReaches | lib/python/ipa.py:484-592 | the object after a run, scalar by scalar and pair by pair, for every state but `absent` |
| Runs.QueueEmptyIff | lib/python/ipa.py:484-510 | the queue after `find` is empty exactly if the object is at its goal |
| Runs.SilentIff | lib/python/ipa.py:563-592 | a run posts, reports and changes nothing exactly if the object is at its goal |
| Theorems.GoalReached | lib/python/ipa.py:329-377 | one run reaches its goal from any start, for `present`, `exact`, `enabled` and `disabled` |
| Theorems.PresentConverges | lib/python/ipa.py:337-377 | after `present` the object is the old one with the wanted values added and the wanted base scalars set |
| Theorems.NothingElseTouched | lib/python/ipa.py:329-377 | foreign attributes stay; outside `exact` no value and no key is lost |
| Theorems.SwitchLeftAlone | lib/python/ipa.py:652-663 | `present` and `exact` write no scalar but those of the base requests, so never the enable key, be it given or not |
| Theorems.StaysTyped | lib/python/ipa.py:580-592 | the object after a run is one the next run can start from |
| Theorems.SecondRunSilent | lib/python/ipa.py:580-592 | idempotence of `present` and `exact` |
| Theorems.EnableMachine | lib/python/ipa.py:640-678 | from every start, and for either polarity of the key, repeated `enabled` or `disabled` runs are refused for good or reach a fixed point after at most two, with the exact starts for which one run is enough and for which the goal is never met |
| Absence.AbsentRemoves | lib/python/ipa.py:530-558 | `absent` without attributes removes the object, exactly unless it shows no attribute |
| Absence.AbsentAttributes | lib/python/ipa.py:370-375 | `absent` with attributes takes named values and matching scalars away and nothing else; a missing object is created |
| Absence.AbsentLeaves | lib/python/ipa.py:370-375 | the same scalar by scalar: a named base scalar goes back to its default if it has one |
| Absence.AbsentQueueEmptyIff | lib/python/ipa.py:345-375 | nothing is queued exactly if none of the named values and matching scalars are there |
| Absence.AbsentSecondRun | lib/python/ipa.py:370-375 | a second `absent` run is silent exactly if no scalar was named with its own default |
| Removal.RemovableIff | lib/python/ipa.py:525-537 | a class can remove objects exactly if no attribute has a default |
| Removal.WhoCanRemove | lib/modules/ipa_service.py:139-144 | groups and access rules can be removed, users and services cannot |
| Sequences.ChangedIsHonest | lib/python/ipa.py:570-592 | `changed` is reported exactly if the object differs afterwards, but for defaults written over themselves |
| Sequences.CheckModePrediction | lib/python/ipa.py:570-578 | check mode changes nothing, reports nothing a run would not do, and misses exactly the unreported kinds |
| Sequences.PresentRunsCompose | lib/python/ipa.py:337-368 | from every start, a missing object included, any sequence of `present` runs ends with the union of the lists and the last writer's scalars, or is refused at exactly the named run |
| Sequences.AbsentAfterPresent | lib/python/ipa.py:345-375 | `absent` after `present` with the same parameters, from every start, leaves the original values minus the named ones and the set scalars at their defaults or gone |
| EveryRequest.NoRequestIsNoOp | lib/python/ipa.py:484-592 | in its turn each request adds only what is missing, removes only what is there, and changes the object, except for a default that `absent` writes over itself |
| Delivery.DeliveredExactlyOnce | lib/python/ipa.py:484-510 | every value of the delta is in exactly one request of the right direction, and no request holds any other |
| Delivery.RequestsWellFormed | lib/python/ipa.py:484-558 | the keys each kind of request holds, and that all but removals and switches ask for the whole object in reply |
| Delivery.OrderIrrelevant | lib/python/ipa.py:570-578 | independent requests give the same object in every order |
| Delivery.AnyOrder | lib/python/ipa.py:563-578 | a run's queue on an existing object may be posted in any order |
| Delivery.AnyOrderAfterAdd | lib/python/ipa.py:563-578 | on a missing object the requests after the add may come in any order |
| Clients.GroupValid | lib/modules/ipa_group.py:150-208 | the group client splits its attributes without gap or overlap, so every result above holds of it |
| Clients.CaaclValid | lib/modules/ipa_caacl.py:118-208 | the same for access rules and their ten member methods |
| Clients.ServiceValid | lib/modules/ipa_service.py:116-258 | the same for services, their hosts and keytabs |
| Clients.UserValid | lib/modules/ipa_user.py:149-341 | the same for users, their certificates and principals, with the inverted enable key |
| ClassFacts.EveryScalarWritten | lib/python/ipa.py:484-497 | in all four classes every parameter but the object's key is an attribute, and the base requests carry every scalar one but the enable key |
| ClassFacts.TypesOfParams | lib/modules/ipa_group.py:158-173 | which parameters are numbers, booleans and lists |
| ClassFacts.MembersThatMark | lib/modules/ipa_group.py:175-208 | member changes that check mode reports: all of groups and access rules, of users the certificates, of services none |
| ClassFacts.ServiceFlagsReached | lib/modules/ipa_service.py:139-144 | after an `exact` run a service's ticket flags are as given, or where not given on for pre-authentication and off for delegation |
| Replies.GroupReply | lib/python/ipa.py:418-423 | a group's reply, values wrapped in lists and written as strings, gives the client what is on the server |
| Replies.CaaclRecovered | lib/modules/ipa_caacl.py:148-164 | an access rule's reply with its long member keys does |
| Replies.UserRecovered | lib/modules/ipa_user.py:249-290 | a user's reply with wrapped certificates, canonical name and realms does, exactly if no alias has a realm of its own and the canonical name is bare or an alias |
| Replies.WrappedNameIsAlias | lib/modules/ipa_user.py:273-277 | with the canonical name wrapped, the reply of a user with bare aliases stands for the user with that name as one more alias |
| Replies.ServiceRecovered | lib/modules/ipa_service.py:174-207 | a service's reply with wrapped certificate and canonical name does exactly if the service is given by that name, and raises exactly if it is given by a name that is none of its principals |
| Replies.MissingReply | lib/python/ipa.py:246-249 | the empty reply means a missing object |
| IpaClient.IPAClient.Clean | lib/python/ipa.py:277-307 | the loop cleans every key or raises where the function says so |
| IpaClient.IPAClient.MungeModuleParams | lib/python/ipa.py:385-400 | canonical parameters in the order of the overrides |
| IpaClient.IPAClient.MungeResponseKeys | lib/modules/ipa_caacl.py:148-159 | in-place renaming over a snapshot of the keys in any order, clashes included |
| IpaClient.IPAClient.MungeUserCerts | lib/modules/ipa_user.py:249-262 | certificates unwrapped one by one, a bare string taken apart, or an exception |
| IpaClient.IPAClient.MungeUserPrincipals | lib/modules/ipa_user.py:266-285 | canonical name dropped, realms cut off by index, or an exception for what is no list of strings |
| IpaClient.IPAClient.MungeResponse | lib/python/ipa.py:418-423 | the canonical reply of each class |
| IpaClient.IPAClient.GetSlice | lib/python/ipa.py:312-319 | list attributes and the rest |
| IpaClient.IPAClient.Op | lib/python/ipa.py:321-327 | difference or intersection key by key, empty results left out |
| IpaClient.IPAClient.ComputeChanges | lib/python/ipa.py:329-377 | the delta of the wanted and the current slice |
| IpaClient.IPAClient.Find | lib/python/ipa.py:428-449 | one `find` posted, the delta to what is on the server stored |
| IpaClient.IPAClient.ModRewriteListChanges | lib/python/ipa.py:464-478 | the in-place loop with pop and insert gives the sorted lines of every dict |
| IpaClient.IPAClient.AddOrMod | lib/python/ipa.py:484-510 | the base request, as add or mod, or none |
| IpaClient.IPAClient.Rem | lib/python/ipa.py:530-558 | the removal, and whether to stop the queue |
| IpaClient.IPAClient.EnableOrDisable | lib/python/ipa.py:652-678 | the switch, for either polarity |
| IpaClient.IPAClient.HandleRoutes | lib/modules/ipa_group.py:175-208 | one request for each row of the table that has something to do, and the mark on `changed` |
| IpaClient.IPAClient.QueueRequests | lib/python/ipa.py:563-568 | the change functions in turn up to the one that stops |
| IpaClient.IPAClient.ProcessQueue | lib/python/ipa.py:570-578 | everything after `find` is posted up to a refusal, nothing in check mode |
| IpaClient.IPAClient.EnsureSeen | lib/python/ipa.py:580-592 | one run on a reply that stands for another object than the server's: the queue follows from the reply, what becomes of the object from the server, up to a refusal |
| IpaClient.IPAClient.Ensure | lib/python/ipa.py:580-592 | one run, method by method, is the run the theorems are about, with exactly the requests it posts: only `find` in check mode, and one more where it is refused |
| IpaClient.RefusedFirst | lib/python/ipa.py:570-578 | a refused run has changed nothing |
| EndToEnd.RunOnce | lib/python/ipa.py:580-592 | one run of a new client object: the object it leaves and exactly what it posts |
| EndToEnd.RunTwice | lib/python/ipa.py:580-592 | two runs of the client object: the object, its goal, and the whole log: `find`, the first queue, `find` |
| EndToEnd.GivenReached | lib/python/ipa.py:329-400 | what the parameters say is what `present` and `exact` leave: scalars and lists as given, under `exact` defaults for the rest |
| EndToEnd.UserTwice | lib/modules/ipa_user.py:249-290 | the same for users with bare names, against a server that spells them as the client expects |
| EndToEnd.ToggleThrice | lib/python/ipa.py:640-678 | three `enabled` or `disabled` runs of the client object: refused three times at the first request, or two queues and a lone `find`, with the final object and when it meets the goal |
| EndToEnd.ToggleUser | lib/modules/ipa_user.py:164-165 | the same for users, whose key is inverted, with bare names |
| EndToEnd.AbsentTwice | lib/python/ipa.py:370-375 | two `absent` runs of the client object: the object, and the whole log with both queues; the second is empty exactly if no scalar was named with its default |
| EndToEnd.AbsentUser | lib/python/ipa.py:370-375 | the same for users with bare names, where the second queue is always empty |
| EndToEnd.RendersToToggles | lib/python/ipa.py:418-423 | a server that answers for every object answers for those that three such runs meet |
| EndToEnd.GroupRenders | lib/python/ipa.py:418-423 | a server that spells groups as the API does satisfies what the runs ask of it |
| EndToEnd.CaaclRenders | lib/modules/ipa_caacl.py:148-164 | the same for access rules |
| EndToEnd.ServiceRenders | lib/modules/ipa_service.py:174-207 | the same for services |
| HiddenKeys.SwitchedForEver | lib/python/ipa.py:652-678 | a reply without the enable key makes every `enabled` or `disabled` run post the switch, exactly unless the reply shows nothing; at the goal it posts nothing else and changes nothing |
| WrappedNames.SeenServed | lib/python/ipa.py:570-578 | the requests made for an object with one value too many, posted to the object without it, are all accepted and do to it what the run would do to the other, that value aside |
| WrappedNames.DroppedIff | lib/python/ipa.py:339-348 | a request asks for that value to be removed exactly if `exact` does not want it or `absent` names it |
| WrappedNames.NextQueueEmptyIff | lib/modules/ipa_user.py:273-277 | the next queue is empty exactly if that was not so (and, under `absent`, no scalar was named with its default) |
| WrappedNames.KeptForGood | lib/modules/ipa_user.py:273-277 | every later run leaves what the first one left |
| WrappedNames.GoalUnlessOnlySeen | lib/modules/ipa_user.py:273-277 | the goal is met after one run exactly unless the value is wanted and was only seen |
| WrappedNames.WrappedTwice | lib/modules/ipa_user.py:266-285 | two runs of the client object in any state on a user whose canonical name comes wrapped: the object, the whole log, and when the second run posts only `find` |
| Certs.PrincipalOfSubject | lib/modules/ipa_cert.py:168-171 | the name in a subject is recovered when it has no comma |
| Certs.PrincipalIs | lib/modules/ipa_cert.py:168-171 | the name taken from a text is its common name if an organisation follows it, and the text itself otherwise |
| Certs.FoundByName | lib/modules/ipa_cert.py:173-188 | a certificate is found exactly if its common name is the principal given, or the common name in it, and authority and serial number fit |
| Certs.LastValidIs | lib/python/ipa.py:246-249 | the certificate a `find` returns is the last valid match |
| Certs.DeltaEmptyIff | lib/modules/ipa_cert.py:205-217 | a `present` delta is empty exactly with a valid certificate and no reason |
| CertRuns.AbsentRevokesLast | lib/modules/ipa_cert.py:156-166 | an `absent` run revokes the last valid match and alters no other certificate; it fails exactly if the reason is missing |
| CertRuns.AbsentRunsCountDown | lib/modules/ipa_cert.py:123-124 | each of n runs takes one valid certificate away, and only valid matches are ever altered |
| CertRuns.AbsentRunsReachZero | lib/modules/ipa_cert.py:123-217 | as many runs as valid matches revoke exactly these, and the next is silent |
| CertRuns.NameReadBackIff | lib/modules/ipa_cert.py:168-171 | a name is read back from its subject exactly if it has no comma |
| CertRuns.IssuedIsFoundIff | lib/modules/ipa_cert.py:168-188 | an issued certificate is a match for the same parameters exactly if the name has no comma and no other serial number is asked for |
| CertRuns.PresentIssuesOne | lib/modules/ipa_cert.py:148-188 | `present` without reason issues exactly one when none is valid; the next run is silent exactly if that one is found again, and otherwise issues one more |
| CertRuns.IssuedFor | lib/modules/ipa_cert.py:123-171 | a run without a valid certificate has one issued whose subject names the principal as it was given, or the common name in it |
| CertRuns.NeverFoundNeverSilent | lib/modules/ipa_cert.py:148-188 | certificates that are not found again pile up, one for each run |
| CertRuns.PresentWithReason | lib/modules/ipa_cert.py:197-217 | with a reason every `present` run asks for a certificate |
| CertRuns.AbsentUndoesPresent | lib/modules/ipa_cert.py:197-217 | issuing and revoking leaves the old certificates as they were, and the new one is revoked exactly if it is found again |
| CertRuns.CheckModeOnlyLooks | lib/python/ipa.py:543-545 | check mode changes nothing and is silent about revocations |
| CertClient.LastOfAnswer | lib/python/ipa.py:246-249 | filtering a reply by status and taking the last is the last valid match |
| CertClient.CertIPAClient.Find | lib/modules/ipa_cert.py:173-188 | reply, count and delta of the `find` |
| CertClient.CertIPAClient.Rem | lib/modules/ipa_cert.py:156-166 | the revocation request, or the failure |
| CertClient.CertIPAClient.Ensure | lib/python/ipa.py:580-592 | one run of the client object does to the authority what the theorems say |
| CertClient.RevokeAll | lib/modules/ipa_cert.py:197-217 | repeated runs of the object leave no valid match |
| DockerNetwork.CreatedIsNotDifferent | lib/modules/docker_network.py:234-282 | a network that keeps its settings never counts as different, for every option map whose stored keys read as the options |
| DockerNetwork.LostOptionIsDifferent | lib/modules/docker_network.py:264-278 | an option no stored key reads as always makes it different |
| DockerNetwork.DifferentIffLacking | lib/modules/docker_network.py:234-282 | a network is different exactly if it lacks a setting that was given, or has another value for it, pool options found by the first key that reads as them |
| DockerNetwork.DifferencesAre | lib/modules/docker_network.py:244-281 | which names are reported for which setting |
| DockerRuns.SettingsReached | lib/modules/docker_network.py:354-367 | a successful run keeps the network exactly if it has every setting and `force` is off, and otherwise creates one; in the end it has the settings |
| DockerRuns.DifferentIffAuxAddresses | lib/modules/docker_network.py:284-291 | with docker-py's keys that is exactly `aux_addresses` |
| DockerRuns.ConnectAllIs | lib/modules/docker_network.py:319-328 | connecting by the stale snapshot succeeds exactly for new, known references that stand for different containers, and adds these |
| DockerRuns.PresentSucceedsIff | lib/modules/docker_network.py:354-367 | exactly when a `present` run goes through |
| DockerRuns.FailedRunLeaves | lib/modules/docker_network.py:284-328 | a failed run leaves no network exactly if an option cannot be built, otherwise the snapshot's containers and some of the new ones |
| DockerRuns.MembersAfter | lib/modules/docker_network.py:354-367 | the containers after a run, given by name or id |
| DockerRuns.MembershipReached | lib/modules/docker_network.py:213-216 | exactly the requested containers, or those of before, with or without a new network; with `appends` both, unless the network is new |
| DockerRuns.RepeatedNameRefusedIff | lib/modules/docker_network.py:322-328 | a repeated name is refused exactly if the snapshot does not have it |
| DockerRuns.ChangedIsHonest | lib/modules/docker_network.py:354-367 | `changed` exactly if the network is new or its containers differ, and so always with `force` |
| DockerRuns.SecondRunSilentIff | lib/modules/docker_network.py:354-367 | a second run does nothing if containers are given by name and is refused if one is given by id |
| DockerRuns.DifferentEveryRun | lib/modules/docker_network.py:360-362 | settings that cannot be found again recreate the network each time, losing containers not requested |
| DockerRuns.CheckModeIs | lib/modules/docker_network.py:284-352 | when check mode fails, and what it reports |
| DockerRuns.CallsLeave | lib/modules/docker_network.py:284-375 | the calls of a run, answered one by one by the daemon, leave what the run leaves; only the last can be refused |
| DockerRuns.CheckModePredicts | lib/modules/docker_network.py:319-352 | where both go through, check mode reports what the run reports |
| DockerManager.DockerNetworkManager.constructor | lib/modules/docker_network.py:203-216 | the snapshot and the default for `connected` |
| DockerNetwork.DifferentIffNamed | lib/modules/docker_network.py:234-282 | a network is different exactly if some setting is named |
| DockerManager.DockerNetworkManager.HasDifferentConfig | lib/modules/docker_network.py:234-282 | true exactly if a setting differs, with exactly the names of those that do |
| DockerManager.DockerNetworkManager.CamelKey | lib/modules/docker_network.py:266-270 | the first key that reads as the option |
| DockerManager.DockerNetworkManager.CreateNetwork | lib/modules/docker_network.py:284-309 | a network without containers, and a fresh snapshot |
| DockerManager.DockerNetworkManager.RemoveNetwork | lib/modules/docker_network.py:311-317 | no network, and no refused call |
| DockerManager.DockerNetworkManager.ConnectContainers | lib/modules/docker_network.py:322-328 | the loop over references against the snapshot |
| DockerManager.DockerNetworkManager.DisconnectMissing | lib/modules/docker_network.py:330-339 | exactly the containers of the snapshot that were not requested go, no call refused |
| DockerRuns.UnchangedOnlyLooks | lib/modules/docker_network.py:354-375 | a successful run reports no change exactly if all it calls after its snapshot is one more look |
| DockerManager.DockerNetworkManager.Present | lib/modules/docker_network.py:354-375 | one run of the object does to the daemon what the theorems say, with exactly the calls of such a run up to the order of disconnections; in check mode it only looks |
| DockerManager.DockerNetworkManager.Absent | lib/modules/docker_network.py:377-378 | the network is gone, whether or not `force` is given |
| DockerManager.PresentTwice | lib/modules/docker_network.py:354-378 | two runs of the object: the requested containers, no change reported the second time, and the calls of the first run followed by nothing but two looks |
| PartedDisk.SwitchesAre | lib/modules/parted.py:684-688 | switching flags one by one sets or clears exactly these on the one partition |
| PartedDisk.CreationHolds | lib/modules/parted.py:636-657 | which commands the first script has, and where the unit stands |
| PartedDisk.LabellingHolds | lib/modules/parted.py:674-693 | which commands the second script has |
| PartedDisk.LabellingIs | lib/modules/parted.py:674-693 | the second script gives the partition the name and exactly the flags asked for |
| PartedDisk.LabellingEmptyIff | lib/modules/parted.py:674-693 | the second script is empty exactly without a name and with the right flags |
| PartedRuns.CreationIs | lib/modules/parted.py:635-653 | the disk after the first script, and when that script is empty |
| PartedRuns.SilentIff | lib/modules/parted.py:635-698 | exactly when a run builds no script |
| PartedRuns.PresentConverges | lib/modules/parted.py:635-698 | the partition is there with bounds, name and flags, the others untouched, an unlabelled disk now `msdos` |
| PartedRuns.SecondRunSilentIff | lib/modules/parted.py:635-698 | a second run builds no script exactly if no name is given |
| PartedRuns.ChangedIsHonest | lib/modules/parted.py:661-698 | without label and name `changed` exactly if the disk changed |
| PartedRuns.OtherNumberIsNeverThere | lib/modules/parted.py:518-526 | a number parted does not give leaves one more partition each run |
| PartedRuns.LabelWipes | lib/modules/parted.py:636-653 | a label given wipes the disk every run, a wanted partition that was there included, and is written unless parted reports no label |
| PartedRuns.AbsentRemovesOne | lib/modules/parted.py:700-706 | the one partition goes, and a second run is silent |
| PartedRuns.AbsentUndoesPresent | lib/modules/parted.py:700-706 | making and removing a partition gives the labelled disk back |
| PartedRuns.SizeAcceptedIff | lib/modules/parted.py:529-534 | a string is accepted as a size exactly if it is a number with a unit that stands for bytes or one of parted's own, or three runs of digits |
| PartedRuns.DefaultSizes | lib/modules/parted.py:579-580 | the defaults of start and end are accepted |
| PartedRuns.BareNumberRefused | lib/modules/parted.py:529-534 | no string of digits and points is accepted |
| PartedRuns.CheckModeOverstates | lib/modules/parted.py:669-688 | check mode never understates, and overstates exactly for partitions that are missing or right already |
| PartedMain.PartedModule.BuildCreation | lib/modules/parted.py:636-657 | the first script, built step by step |
| PartedMain.PartedModule.BuildLabelling | lib/modules/parted.py:674-693 | the second script, from the flags read again |
| PartedMain.PartedModule.EnsurePresent | lib/modules/parted.py:635-698 | one run with state `present` does what the theorems say, in check mode nothing |
| PartedMain.PartedModule.EnsureAbsent | lib/modules/parted.py:700-706 | one run with state `absent`; check mode always reports a change |
| PartedMain.PartedModule.RunModule | lib/modules/parted.py:615-709 | parameters are refused before the disk is touched, then one run of the state, or what check mode reports of it |
| PartedText.SplitJoin | lib/modules/parted.py:265-268 | splitting undoes joining |
| PartedText.ParsePrintedUnit | lib/modules/parted.py:212-239 | a printed size reads back as its value and unit, triples included |
| PartedText.ParseUnitIff | lib/modules/parted.py:212-239 | every string that is read as a size, and the unit that is found in it |
| PartedReport.FlagsBack | lib/modules/parted.py:320 | a printed flag list reads back as it was |
| PartedText.StripEndIs | lib/modules/parted.py:268 | all semicolons at the end of a line go, and nothing else |
| PartedReport.PaddedFlag | lib/modules/parted.py:320 | blanks around a flag do not count, and an empty entry is none |
| PartedReport.PartBack | lib/modules/parted.py:297-322 | a printed partition row reads back, in either layout |
| PartedReport.ReadUndoesPrint | lib/modules/parted.py:242-324 | parsing undoes printing for any disk, in bytes, cylinders and triples |
| PartedReport.ParsePartitionInfo | lib/modules/parted.py:265-324 | the parser's loops compute the report that the round trip is about |
| PartedSize.IndexIs | lib/modules/parted.py:344-346 | the unit index is the one the logarithm gives |
| PartedSize.CompactBound | lib/modules/parted.py:342-376 | for 10 to 10^16 bytes the scaled value is in [10, 10000) and the result within 0.501 per cent of it |
| PartedSize.UnitsMean | lib/modules/parted.py:207-208 | which units there are, and how many bytes each stands for |
| PartedSize.CompactMeans | lib/modules/parted.py:342-376 | the number returned, in the unit returned, is the size within the bound; it has one decimal below 100 and none above, a half rounded up |
| PartedSize.CompactExact | lib/modules/parted.py:342-376 | outside that range the result is the exact number of bytes |
| PartedSize.ExplicitUnitIsBytes | lib/modules/parted.py:336-356 | an explicit unit is never scaled to |
| PartedSize.FormatDiskSize | lib/modules/parted.py:327-376 | the formatter, branch by branch, computes the number the bounds are about |
| SystemdEscape.SystemdEscape | lib/filter_plugins/DO_filters.py:14-38 | the loop, with its first-character cases, escapes the path without one leading slash character by character |
| SystemdEscape.EscapesAre | lib/filter_plugins/DO_filters.py:28-37 | which characters stay, what a slash becomes, and that the rest is written in hexadecimal |
| SystemdEscape.OutputIsUnitName | lib/filter_plugins/DO_filters.py:28-37 | the output holds no slash and no dot |
| SystemdEscape.RoundTripIff | lib/filter_plugins/DO_filters.py:14-38 | the path minus one leading slash can be read back exactly if every character passes, is a slash, or is in 0x10 to 0xFF |
| SystemdEscape.EscapeInjective | lib/filter_plugins/DO_filters.py:14-38 | such paths get the same name only if they are the same but for a leading slash |
| SystemdEscape.HexCollision | lib/filter_plugins/DO_filters.py:37 | every escaped character from 0x10 on gets the name of a different path |
| SystemdEscape.LowCollision | lib/filter_plugins/DO_filters.py:37 | so a character below 0x10 and a digit look like one character with two digits |
| PemWrap.IpaCertToPem | lib/filter_plugins/ipa_cert_to_pem.py:8-17 | the loop computes the text the laws are about |
| PemWrap.ChunksAre | lib/filter_plugins/ipa_cert_to_pem.py:12-16 | the lines hold the data, 64 characters each but the last, which is not empty |
| PemWrap.ChunksUnique | lib/filter_plugins/ipa_cert_to_pem.py:12-16 | there is no other way to cut the data so |
| PemWrap.PemLines | lib/filter_plugins/ipa_cert_to_pem.py:8-17 | the lines of the text are the two armour lines around the data's |
| PemWrap.UnarmourIff | lib/filter_plugins/ipa_cert_to_pem.py:8-17 | stripping armour and line breaks gives the data back exactly if it has no line break |

## Left out

- FreeIPA: login, HTTP, JSON and character sets. A request is posted to a server that accepts or
  refuses it; `find` returns the object asked for, in any spelling that the client's `munge`
  functions undo (`Replies` gives one for each class).
- FreeIPA: the name of the object in requests, `all` options of `find`, and the response values
  that `ensure` returns; no property here depends on them.
- FreeIPA: `list(set(...))` has no fixed order, so the values of one member request are a set.
- IpaServer: the server's semantics are assumed: add, mod with `addattr` and `delattr`, del, enable
  and disable, and one add and one remove method per kind of member. A request for a member that
  is there already, or not there, is taken as harmless. Where the reply stands for the
  server's object the client never makes one (`EveryRequest.NoRequestIsNoOp`); for a user whose
  canonical name comes wrapped it does (`WrappedNames.DroppedIff`).
- EndToEnd.UserTwice: about users with bare aliases, as are `EndToEnd.ToggleUser`,
  `EndToEnd.AbsentUser` and `WrappedNames.WrappedTwice`; the reply of any other user stands for
  another object (`Replies.UserRecovered`), and the runs on it are not followed.
- FreeIPA: authorities, DNS zones and DNS records, which are further instances of the engine's
  parameters, would only add more cases of `ValidClient`.
- Certificates: state `exact`, which looks reply keys up among the parameters.
- Certificates: the authority is assumed to issue a certificate for the name in the request, to
  refuse requests without a signing request or a principal, and to search by common name. Whether
  it puts up with a revocation reason on a request is left open.
- Docker: argument parsing, `debug` and the `diff` and `actions` results; the order in which a
  dictionary yields containers, which no result depends on; and changes made by others during a run.
- Docker: the network is looked up by its exact name. What the daemon reports of a network it
  created is a parameter.
- Parted: running the program, reading `/sys` and its version. The commands' effects on a disk are
  assumed: a label removes all partitions, a flag is independent of others and of other
  partitions, and removing a partition does not renumber the rest.
- PartedSize.CompactBound: over exact numbers, as is `PartedSize.CompactMeans`; the logarithm and
  the division are not rounded, and the factor `1 + 1E-16` is 1.
- PartedText.ParsePrintedUnit: numbers read as exact values rather than as floating point.
- PartedMain.PartedModule.BuildLabelling: in check mode a missing number is written as 0 into the
  script, where the code writes `None`; the script is not run.
- The filters `formatmapstr`, `formatmaplist`, `domain_to_dn`, `ip_addr_list` and `cn_from_dn`,
  which are single expressions.
- `openssl_csr.py`, `openssl_privatekey.py`, `crypto.py`, `do_droplet_info.py` and the scripts under
  `python/coreprov`, which wrap libraries and remote commands.
