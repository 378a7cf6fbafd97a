# A model of the Timeweb Crossplane provider's reconcilers

The provider is a set of level-triggered controllers. Each one observes an upstream cloud state, computes what differs
from a declaration, and issues a bounded number of writes. This project models the upstream as explicit state (fields,
maps and sequences) that applies each accepted write, models `Observe`, `Update` and `Create` as steps over it, and proves
what those steps keep, what whole runs can and cannot do, and when the loop converges. Where a promise of the code fails on
some inputs, a lemma says exactly on which.

How it is laid out:

- Shared text facts: `Text` (byte order, sorting, joining, splitting), `Wrappers`.
- CDN: `CdnSettings` (declaration, observed configuration, minimal PATCH, what the upstream does with it),
  `CdnSettingsTheorems`, `CdnSsl` (the certificate decision), `CdnDecisions` (what each decision means), `CdnReconciler`
  (the controller object), `CdnPasses` (what one pass does), `CdnRuns` (whole runs against any upstream),
  `CdnConvergence` (custom mode), `CdnLetsEncrypt` (letsEncrypt mode once a certificate is listed), `CdnRemoval` (mode
  none), `CdnBudget` (the budget key).
- Object storage: `Policy`, `PolicyTheorems` (what the comparison means), `PolicyExactness` (when it is exact),
  `GrantTheorems`, `Grants`; `Itoa` (the decimal printer).
- Kubernetes: `NodepoolIdentity` (at most one group), `NodepoolLiveness` (it gets one), `NodepoolUpdate`, `Versions`,
  `ClusterUpgrade`, `RouterIntegration`.
- Network: `SetReconcile` (the paced set writer on keys), `Firewall`, `FirewallController`, `FirewallTheorems`,
  `FirewallContents` (what is created), `RouterRefs`, `RouterUnion` (what its entries ask for).
- Compute: `FloatingIp`, `FloatingIpTheorems`, `Float32`.

The pattern is the same throughout. A controller is a class with the fields the Go code mutates; each method's
postcondition equates the new state with a step function of the old one. The step functions are what the lemmas are about:
one call, agreement of two calls, and runs, which are sequences of steps interleaved with anything the outside world may
do. Outcomes of calls (accepted, answer lost, refused, a read that fails) are inputs of a step.

Assumptions about the upstream, each visible in a definition:

- CDN PATCH (`CdnSettings.ApplyConfig`, `ApplyResource`): `cache` and `robots` replace their section; `delivery`,
  `security` and header keys are partial; the technical domain is kept and the custom ones replaced; empty lists and maps
  never reach the upstream because the wire types drop them (`internal/clients/timeweb/cdn.go:135`,
  `internal/clients/timeweb/cdn.go:142`, `internal/clients/timeweb/cdn.go:179`); a server origin releases the storage
  binding; a readback may hide the token key.
- An uploaded certificate gets an id that no certificate of the account has and that is not in the slot
  (`CdnConvergence.Honest`).
- A router integration PATCH makes the target the only router that lists the cluster (`RouterIntegration.Relinked`).
- A floating-IP bind stores the server id it is sent (`FloatingIp.BindOne`). The Go client holds every id as a `float32`
  and writes it as the shortest decimal that reads back; `Float32` models both. Update works with the integer of the
  external name, Observe with the id the server itself reports, which has been rounded
  (`internal/controller/compute/server_external.go:96`). A created server's external name is taken from a rounded id
  (`internal/controller/compute/server_external.go:174`), so the two differ only for an imported server.
  `FloatingIpTheorems.OnePassConvergesIff` and `UnrepresentableNeverReleases` show what the rounding costs, `TrulyHeldIff`
  what the decimal costs.
- An unlink takes one listed entry of the service out of the group (`FirewallController.DropService`).
- A version PATCH starts a rollout; the reported version changes when it finishes (`ClusterUpgrade.Finished`).
- Node-group and firewall-rule ids are never reused.
- The managed-resource runtime puts a pending annotation on a nodepool before it calls `Create`, and takes the create for
  incomplete when that annotation is strictly later than the last recorded success or failure. Its times have whole
  seconds, so a create in the same second as the last recorded outcome, or one after the clock stepped back, is not seen as
  pending. `Attempt.pendingSeen` is that bit; the runtime's own code is not part of this model, so both values are allowed.
- A write that fails ends the pass. "`healthy` calls succeed" covers every prefix; a call that took effect although its
  answer was lost leaves the upstream as if one more call had succeeded.

Where code and documentation differ, the code is modelled: a pre-release tail never makes a version older, and a dotted one
can make it newer (`Versions.PreReleaseNeverOlder`); a detach removes whichever router holds the cluster
(`RouterIntegration.DetachIsRouterBlind`); a server that is off makes the floating-IP pass return without an error, although
the comment at its call site speaks of one.

## Model

| member | source | states |
|---|---|---|
| CdnSettingsTheorems.BuildDesiredWrite | internal/controller/cdn/external.go:641-688 | the field-by-field builder produces the minimal PATCH, and the flag its branches raise is up exactly when that PATCH carries something |
| CdnSettingsTheorems.WriteIsMinimal | internal/controller/cdn/external.go:641-948 | each part of the PATCH is sent exactly when it is declared and the upstream does not agree with it, leaf for leaf; a header map is never sent over headers that agree |
| CdnSettingsTheorems.DesiredConfig | internal/controller/cdn/external.go:715-861 | section after section, each raising the flag when it writes: the configuration half of that PATCH, nil when no section drifted |
| CdnSettingsTheorems.DesiredCache | internal/controller/cdn/external.go:749-787 | the cache section is compared leaf by leaf and replaced whole, disabled features as null, stale conditions kept |
| CdnSettingsTheorems.DesiredRobots | internal/controller/cdn/external.go:834-848 | robots type and content are compared apart and written together, content only in custom mode |
| CdnSettingsTheorems.DesiredDelivery | internal/controller/cdn/external.go:863-904 | the delivery section is written whole, packaging only on a change |
| CdnSettingsTheorems.DesiredHTTPHeaders | internal/controller/cdn/external.go:906-948 | request headers and CORS are diffed apart and sent together |
| CdnSettingsTheorems.DesiredSecurity | internal/controller/cdn/external.go:715-861 | redirect and token are diffed apart; the certificate slot is never in this patch |
| CdnSettingsTheorems.DesiredDomains | internal/controller/cdn/external.go:715-861 | custom domains are compared as sorted lists against the aliases without the technical one |
| CdnSettingsTheorems.CustomAliasesOf | internal/controller/cdn/external.go:1136-1147 | every alias except the technical one, in order |
| CdnSettingsTheorems.TechnicalAliasOf | internal/controller/cdn/external.go:1162-1169 | the first alias under the platform's own suffix |
| CdnSettingsTheorems.DomainsAttachedCheck | internal/controller/cdn/external.go:1149-1160 | all declared domains are among the aliases |
| CdnSettingsTheorems.MapsEqualCheck | internal/controller/cdn/external.go:1221-1231 | size and zero-value lookups agree |
| CdnSettingsTheorems.MapsEqualExactIff | internal/controller/cdn/external.go:1221-1231 | that comparison is map equality for every right-hand side exactly when the left map has no empty value |
| CdnSettingsTheorems.DomainsConverge | internal/controller/cdn/external.go:1136-1169 | after a domains PATCH the domains are no longer drifted exactly when some are declared and none can be taken for the technical alias |
| CdnSettingsTheorems.OnePatchConvergesIff | internal/controller/cdn/external.go:641-688 | applying the PATCH leaves nothing to write exactly when each drifted section survives the wire: declared domains, headers and CORS origins are non-empty, and so on section by section |
| CdnSettingsTheorems.OnePatchAgrees | internal/controller/cdn/external.go:641-688 | under that condition and with no header empty, every declared leaf is upstream as declared after one PATCH |
| CdnSettingsTheorems.StaleConditionsKept | internal/controller/cdn/external.go:749-787 | serving stale content keeps the upstream's conditions, or starts with errors and timeouts |
| CdnSettingsTheorems.CleanMeansAgreementIff | internal/controller/cdn/external.go:641-948 | nothing to write means every declared leaf is upstream as declared (declared name or else the object's, declared port or else the scheme's, https unless declared off, content mode per flag, 64-bit byte limit, last value per header, aliases but for the technical one), for every upstream, exactly when no header's last value is empty; the other direction always holds |
| CdnSettingsTheorems.UndeclaredUntouched | internal/controller/cdn/external.go:641-948 | every block the spec leaves out, the suspension flag and the certificate slot survive any PATCH |
| CdnSettingsTheorems.LimitExactIff | internal/controller/cdn/external.go:671-681 | the byte limit is the declared gibibytes exactly below 2^33; above, the 64-bit shift overflows |
| CdnSettingsTheorems.OriginConverge | internal/controller/cdn/external.go:690-713 | one write leaves the origin not drifted |
| CdnSsl.FirstCertificate | internal/controller/cdn/ssl.go:198-250 | the inventory search returns the first certificate the query hits |
| CdnSsl.LatestTask | internal/controller/cdn/ssl.go:348-356 | the task with the highest id |
| CdnSsl.LatestIsGreatest | internal/controller/cdn/ssl.go:348-356 | that task is in the list and no id exceeds its own |
| CdnSsl.ComputeSSL | internal/controller/cdn/ssl.go:185-345 | the branching decision of all modes equals the specification the lemmas below are about |
| CdnSsl.ComputeCustom | internal/controller/cdn/ssl.go:193-251 | upload, bind, drop the old managed certificate, then copies, in that order |
| CdnSsl.ComputeLetsEncrypt | internal/controller/cdn/ssl.go:253-320 | free the slot, drop ours, then issue within budget and spacing |
| CdnSsl.DeleteSparesSlot | internal/controller/cdn/ssl.go:185-345 | a delete never names the certificate in the slot |
| CdnSsl.DeleteTargetsOurs | internal/controller/cdn/ssl.go:229-250 | the target is in the inventory and matches the marker, or in custom mode is a copy of the desired identity |
| CdnSsl.CustomNeverUnbinds | internal/controller/cdn/ssl.go:193-251 | custom mode neither unbinds nor issues |
| CdnSsl.ObserveAndUpdateAgree | internal/controller/cdn/external.go:182-273 | deciding again on the mirrored status gives the same outcome, so Observe's verdict is Update's action |
| CdnDecisions.LetsEncryptIssues | internal/controller/cdn/ssl.go:253-320 | with no Let's Encrypt certificate listed: it unbinds exactly when the first listed certificate in the slot is named by the marker, deletes exactly when the slot is free and one of ours is left, issues exactly when neither, no newest task is running, the domains are attached and the budget is free; failed, issuing and exhausted states exactly |
| CdnDecisions.LetsEncryptBinds | internal/controller/cdn/ssl.go:253-320 | with one listed, the first is bound, and once it is the marker is filled in if there was none |
| CdnDecisions.CustomUploads | internal/controller/cdn/ssl.go:193-219 | an identity that is not listed is uploaded unless it failed under the same key; without a resolved secret nothing is done |
| CdnDecisions.CustomBinds | internal/controller/cdn/ssl.go:220-251 | the first listed certificate of the identity is bound; then the certificate the marker names goes, then other copies; what the marker becomes |
| CdnDecisions.NoneClears | internal/controller/cdn/ssl.go:323-343 | in mode none whatever is in the slot goes, then ours, then nothing is claimed; without an ssl block nothing happens |
| CdnDecisions.OursIff | internal/controller/cdn/ssl.go:159-175 | a certificate is ours exactly when the marker has its id and no recorded type, subject or day contradicts it |
| CdnDecisions.CarriesIff | internal/controller/cdn/ssl.go:121-128 | identities agree exactly on subject, SANs in any order and expiry day |
| CdnReconciler.CdnController.Observe | internal/controller/cdn/external.go:120-211 | verdict and mirrored status are the observing step of the old state |
| CdnReconciler.CdnController.Update | internal/controller/cdn/external.go:333-394 | settings first, else one certificate action: the updating step of the old state |
| CdnReconciler.CdnController.ExecuteSSLAction | internal/controller/cdn/ssl.go:416-494 | upstream effect and bookkeeping of one action, for every answer |
| CdnReconciler.CdnController.ListCertificates | internal/controller/cdn/ssl.go:391-402 | account-wide in custom mode, per resource otherwise |
| CdnReconciler.CdnController.SslInputs | internal/controller/cdn/external.go:213-245 | the decision's inputs read off the state |
| CdnPasses.InputsAre | internal/controller/cdn/external.go:213-245 | the decision sees the slot, the marker, the status with its zero values, whether every declared domain is an alias, and the whole account in custom mode, else what is listed under the resource, in order |
| CdnPasses.ObserveVerdictIff | internal/controller/cdn/external.go:120-211 | an Observe never touches the upstream; it fails exactly on unresolved secrets, a stuck retry annotation or a failing list, and is up to date exactly when suspended, or clean with no certificate action due |
| CdnPasses.ObserveMirrors | internal/controller/cdn/external.go:120-273 | an Observe honours a requested retry first and then mirrors its decision; otherwise it writes nothing |
| CdnPasses.UpdateWritesIff | internal/controller/cdn/external.go:333-394 | an Update makes at most one write: the settings exactly when they are dirty, else the certificate action exactly when one is due, the block is declared and the lists can be read |
| CdnPasses.ActionsDo | internal/controller/cdn/ssl.go:416-494 | what each action changes by the answer it gets, and that it changes nothing else |
| CdnPasses.SlotIsSet | internal/controller/cdn/ssl.go:466-477 | a slot PATCH sets or empties the slot and leaves every other setting alone |
| CdnPasses.StatusKept | internal/controller/cdn/ssl.go:419-465 | a rejected upload is kept as failed; an issuance is stamped, and charged unless a task exists |
| CdnPasses.DeleteRemoves | internal/controller/cdn/ssl.go:478-492 | a delete that lands removes every entry of that id and no other; the marker goes exactly when it was accepted and the marker names that id |
| CdnBudget.BudgetKeyExact | internal/controller/cdn/ssl.go:361-373 | before hashing, two keys agree exactly for the same domains in any order, the same mode and the same certificate identity |
| CdnBudget.BudgetKeyText | internal/controller/cdn/ssl.go:358-373 | the hashed text: the sorted domains, the mode's name when there is an ssl block, the desired identity |
| CdnRuns.DeletesAreSafe | internal/controller/cdn/ssl.go:229-287 | over every run with any upstream interference, each certificate delete spares the bound certificate and hits ours |
| CdnRuns.DeletesArePinned | internal/controller/cdn/ssl.go:159-183 | over every run from no marker or a full one the marker stays full, so each delete outside custom mode agrees with it on id, type, subject and expiry day |
| CdnRuns.CallsAreWarranted | internal/controller/cdn/ssl.go:185-345 | over every run, letsEncrypt mode unbinds only a certificate the marker names and issues only with none listed, the slot free and none of ours left; binds take the first matching certificate and uploads one that is not listed |
| CdnRuns.CustomKeepsSlot | internal/controller/cdn/ssl.go:193-251 | custom-mode runs never empty an occupied slot |
| CdnRuns.SettingsKeepSlot | internal/controller/cdn/external.go:333-391 | a settings PATCH never touches the slot |
| CdnRuns.StepBudget | internal/controller/cdn/ssl.go:311-320 | the recorded count after a pass is the count before (zero after a reset) plus the charged issuance, and without a reset an issuance waits out the spacing since the last stamp |
| CdnRuns.BudgetInvariant | internal/controller/cdn/ssl.go:54-57 | over every run the recorded attempts stay between zero and four |
| CdnRuns.WindowCharges | internal/controller/cdn/ssl.go:311-320 | between two resets charged issuances are counted exactly, so at most four happen; the conflict answer is not charged |
| CdnRuns.IssuesWait | internal/controller/cdn/ssl.go:311-320 | with a charged attempt on record every later issuance of the window waits fifteen minutes |
| CdnRuns.IssueSpacing | internal/controller/cdn/ssl.go:435-465 | any issuance after one that left attempts above zero comes at least fifteen minutes later in its window |
| CdnRuns.RejectionIsRecorded | internal/controller/cdn/ssl.go:419-434 | a terminally rejected upload is remembered under its key |
| CdnRuns.RejectedUploadNotResent | internal/controller/cdn/ssl.go:205-219 | it is not sent again until the key changes or a matching certificate appears |
| CdnConvergence.PassCountsDown | internal/controller/cdn/external.go:333-391 | in custom mode each non-idle pass lowers the distance by exactly one; idle means distance zero and the settled state |
| CdnConvergence.CustomConverges | internal/controller/cdn/ssl.go:193-251 | the loop writes in exactly `Distance` passes, then idles with settings clean, the desired identity bound, no other copy, and the marker on it |
| CdnConvergence.SettingsRound | internal/controller/cdn/external.go:333-391 | a settings pass takes the settings part off the distance and nothing else |
| CdnConvergence.SlotLeavesSettings | internal/controller/cdn/ssl.go:466-477 | writing the slot never re-dirties settings |
| CdnConvergence.DeleteTarget | internal/controller/cdn/ssl.go:229-250 | a custom-mode delete hits a removable certificate other than the match |
| CdnLetsEncrypt.BindingCountsDown | internal/controller/cdn/ssl.go:253-320 | with a certificate listed in letsEncrypt mode each non-idle pass takes exactly one off the unfinished work; idle means settings clean and that certificate bound; the marker is filled in only when there was none |
| CdnLetsEncrypt.LetsEncryptConverges | internal/controller/cdn/ssl.go:253-320 | the loop writes in exactly (dirty settings) + (slot differs) passes, then idles with the certificate bound; the marker ends on it exactly when there was none or it already named it |
| CdnRemoval.RemovalCountsDown | internal/controller/cdn/ssl.go:323-343 | in mode none each non-idle pass takes exactly one off what remains; idle means nothing remains |
| CdnRemoval.RemovalConverges | internal/controller/cdn/ssl.go:323-343 | in mode none the loop writes in exactly as many passes as there are dirty settings, an occupied slot and a listed certificate the marker names, then idles with all three gone and nothing claimed |
| Policy.RenderPolicy | internal/clients/rgwiam/policy.go:99-132 | the base statement, then two statements per grant in bucket order |
| Policy.CanonicalStatements | internal/clients/rgwiam/policy.go:134-151 | the sorted canonical lines, none for a document that does not parse |
| Policy.PoliciesEqual | internal/clients/rgwiam/policy.go:153-171 | both parse and their sorted lines agree |
| Policy.DeriveLevelForBucket | internal/clients/rgwiam/policy.go:187-217 | the level read off the statements that mention the bucket |
| PolicyTheorems.SameMeaningComparesEqual | internal/clients/rgwiam/policy.go:134-171 | documents granting the same compare equal whatever their Sids and orders, for all strings |
| PolicyTheorems.PoliciesEqualExact | internal/clients/rgwiam/policy.go:134-171 | on separator-free documents the comparison holds exactly when the multisets of (effect, actions, resources) agree |
| PolicyTheorems.UnparsedNeverEqual | internal/clients/rgwiam/policy.go:153-171 | a document that does not parse equals none |
| PolicyExactness.ComparesExactlyIff | internal/clients/rgwiam/policy.go:134-171 | a document is told from every document that grants something else exactly when each statement has a pipe-free effect and exactly one action and one resource, each non-empty, pipe-free and not cut by a comma into two parts in order |
| PolicyExactness.RenderedExactIff | internal/clients/rgwiam/policy.go:99-171 | a rendered policy is told from every other document exactly when each grant is Admin on a bucket whose two resource names cannot be read in another way |
| PolicyExactness.RenderedExactByLevel | internal/clients/rgwiam/policy.go:99-171 | for bucket names without pipe and comma, as the bucket-name pattern has them, exactly when every grant is Admin: with a Read or ReadWrite grant some foreign document compares equal and is never repaired |
| GrantTheorems.RenderingInjectiveIff | internal/clients/rgwiam/policy.go:99-171 | a distinct grant list is told from every other list exactly when no bucket and its slash-star name hold one of two level pairs |
| GrantTheorems.SlashFreeUnambiguous | internal/clients/rgwiam/policy.go:99-171 | for slash-free buckets, policies are equal exactly when the grants are |
| GrantTheorems.DeriveExactIff | internal/clients/rgwiam/policy.go:187-217 | a rendered policy gives a name its own level, or absence, exactly when its slash-star neighbours do not interfere |
| GrantTheorems.DeriveRoundTrip | internal/clients/rgwiam/policy.go:187-217 | for slash-free names every query returns the declared level or absence |
| GrantTheorems.RenderedEqualIff | internal/clients/rgwiam/policy.go:99-171 | rendered policies are equal exactly when every resource is written equally often with each access |
| GrantTheorems.SortedMap | internal/clients/rgwiam/policy.go:99-103 | sorting grants keeps the bucket-to-level map |
| GrantTheorems.RenderedAllowsIff | internal/clients/rgwiam/policy.go:77-128 | a rendered policy allows listing one's buckets, everything on a bucket's objects to Admin and ReadWrite and on the bucket to Admin, otherwise Get and List actions, and nothing else |
| GrantTheorems.RenderedInOrder | internal/clients/rgwiam/policy.go:95-128 | the base statement, then for each grant in bucket order its objects and its bucket statement, with the Sid, actions and resource of its level |
| Grants.ResolveGrants | internal/controller/s3user/connector.go:112-141 | succeeds exactly when every entry gives a bucket (or the user is being deleted) and no bucket is given twice; the grants are then the sorted pairs of a given bucket and its entry's own level, with the first bucket's region; else the first offending entry's own refusal or duplicate |
| Grants.FailureIsFatal | internal/controller/s3user/connector.go:116-131 | an entry refused by itself, or giving a bucket again, makes the whole list unacceptable |
| Grants.ResolveIs | internal/controller/s3user/connector.go:146-172 | an entry gives a bucket by name, or by reference to one that is ready and named, at its own level; each refusal happens exactly for its reason |
| Grants.GrantedIff | internal/controller/s3user/connector.go:112-141 | a pair is granted exactly when some entry of that level gives that bucket |
| Grants.OrderNeverMatters | internal/controller/s3user/connector.go:112-141 | reordering an accepted list changes neither grants nor region |
| Grants.AccessRoundTrip | internal/controller/s3user/connector.go:112-141 | from access list to policy and back a name reads back at a level exactly when some entry of that level gives it |
| Itoa.Print | internal/clients/rgwiam/iam.go:96-116 | the backward loop stays inside its 20-byte buffer and prints the decimal form |
| Itoa.PrintsExactlyUnlessMinimum | internal/clients/rgwiam/iam.go:96-116 | parsing gives the number back for every 64-bit integer but the minimum, which prints a lone minus sign |
| Itoa.PrintsInjectively | internal/clients/rgwiam/iam.go:96-116 | different numbers print differently |
| NodepoolIdentity.FindGroupsByIdentity | internal/controller/kubernetes/nodepool_external.go:239-272 | exactly the groups of the declared name and sizing |
| NodepoolIdentity.IdentityController.Observe | internal/controller/kubernetes/nodepool_external.go:140-196 | verdict and remembered identity are the observing step |
| NodepoolIdentity.IdentityController.Create | internal/controller/kubernetes/nodepool_external.go:289-397 | cluster gate, sizing, adoption guard and POST are the creating step |
| NodepoolIdentity.IdentityController.Record | internal/controller/kubernetes/nodepool_external.go:339-364 | what the create annotations hold after each outcome, saved or not |
| NodepoolIdentity.ObserveKeepsInv | internal/controller/kubernetes/nodepool_external.go:146-196 | observing keeps the identity invariant |
| NodepoolIdentity.AbsentMeansNone | internal/controller/kubernetes/nodepool_external.go:146-182 | an unmarked, connected object that reports absence has no upstream group |
| NodepoolIdentity.CreateKeepsInv | internal/controller/kubernetes/nodepool_external.go:339-364 | creating keeps it, for every outcome and whether annotations are saved or not |
| NodepoolIdentity.NeverTwoGroups | internal/controller/kubernetes/nodepool_external.go:146-364 | over every run with lost answers, deletions, strangers' groups and harmless overwrites of the external name, at most one group of the identity exists |
| NodepoolIdentity.FreshObjectIsSafe | internal/controller/kubernetes/nodepool_external.go:146-364 | the same from a new object when no such group existed |
| NodepoolIdentity.MarkedCreatesNeverDuplicate | internal/controller/kubernetes/nodepool_external.go:339-364 | when every Create sees its pending mark, external names may hold anything at any time |
| NodepoolIdentity.CreateDuplicatesIff | internal/controller/kubernetes/nodepool_external.go:289-397 | a Create makes a second group exactly when it runs on a known cluster with sizing resolved, its POST goes through, no mark or pending create is seen and the first group exists |
| NodepoolIdentity.OverwriteSafeIff | internal/controller/kubernetes/nodepool_external.go:146-182 | after overwriting the external name no run without another harmful overwrite reaches two groups exactly when a mark is on the object, or there is no group, or the name is the group's, or it is cleared or handed out before and gone while status remembers another identity |
| NodepoolLiveness.CreateAddsIff | internal/controller/kubernetes/nodepool_external.go:289-397 | a Create adds the declared group exactly when the cluster is known, sizing resolves, the POST goes through and, after a doubtful create, the list answers and holds no group of the declared name and sizing; otherwise it changes no group |
| NodepoolLiveness.CreateRecords | internal/controller/kubernetes/nodepool_external.go:339-364 | the object is then named after the new or the adopted group, remembers a new one and its parent as far as status is saved, or carries a failure mark for good; an outcome that is not recorded leaves the create pending, a recorded one does not |
| NodepoolLiveness.NoCreate | internal/controller/kubernetes/nodepool_external.go:289-336 | without a known cluster or sizing a Create only marks the failure; without an Observe that found nothing none runs |
| NodepoolLiveness.VerdictsIff | internal/controller/kubernetes/nodepool_external.go:140-182 | each verdict of an Observe exactly, by the parent that counts, the name, the memory and the answer |
| NodepoolLiveness.ObserveRecords | internal/controller/kubernetes/nodepool_external.go:146-196 | an Observe only opens the gate when it reports absence, and remembers the group it found and its parent |
| NodepoolLiveness.WorkingRoundSettlesIff | internal/controller/kubernetes/nodepool_external.go:146-397 | from every reachable state one Observe and Create whose calls work leave exactly one declared group, named by the object, exactly unless it is parked on another identity or named after a foreign group |
| NodepoolLiveness.EveryRunRecoversIff | internal/controller/kubernetes/nodepool_external.go:146-397 | so it does after any run of failures, lost answers, deletions and harmless overwrites |
| NodepoolLiveness.SettledStays | internal/controller/kubernetes/nodepool_external.go:146-397 | once settled, no further Observe or Create changes the groups or the name, whatever their calls do |
| NodepoolLiveness.SettlesForGood | internal/controller/kubernetes/nodepool_external.go:146-397 | the one group a working round leaves is the one that stays over every run of further Observes and Creates |
| NodepoolUpdate.MetadataUpToDate | internal/controller/kubernetes/nodepool_external.go:674-700 | sizes and membership of labels and taints |
| NodepoolUpdate.DeclaredLabels | internal/controller/kubernetes/nodepool_external.go:641-652 | labels in key order |
| NodepoolUpdate.DeclaredTaints | internal/controller/kubernetes/nodepool_external.go:657-668 | taints in spec order, an absent value sent as empty |
| NodepoolUpdate.GroupController.Update | internal/controller/kubernetes/nodepool_external.go:433-523 | guards, metadata, autoscaler, count: the planned writes applied as far as calls succeed |
| NodepoolUpdate.DriftIffWrites | internal/controller/kubernetes/nodepool_external.go:770-799 | past the sizing guards the drift check holds exactly when Update writes nothing, except that a pool declaring both sizings with a locked configurator stays flagged |
| NodepoolUpdate.UpToDateIff | internal/controller/kubernetes/nodepool_external.go:770-799 | the drift check holds exactly when no other kind of sizing is remembered, the metadata check passes, and the autoscaler runs between the declared bounds or is off over the declared count |
| NodepoolUpdate.CountOnlyWhenOff | internal/controller/kubernetes/nodepool_external.go:471-523 | a count is written only when autoscaling is declared and observed off, and then reaches the declared count |
| NodepoolUpdate.MetadataFirst | internal/controller/kubernetes/nodepool_external.go:441-467 | drifted metadata is written before anything else, and that call alone sets name, labels in key order and taints in spec order |
| NodepoolUpdate.RefusalsIff | internal/controller/kubernetes/nodepool_external.go:430-440 | with the preset remembered as Observe leaves it, Update refuses a sizing switch exactly when another kind is remembered or observed, and a preset change exactly when the preset changed since that Observe: a change it has seen is adopted |
| NodepoolUpdate.TwoPassesConverge | internal/controller/kubernetes/nodepool_external.go:441-523 | two passes from any state make the pool up to date; one does exactly unless an autoscaler is switched off over a wrong count |
| NodepoolUpdate.RoundsConvergeIff | internal/controller/kubernetes/nodepool_external.go:433-523 | from any group and memory, two rounds of Observe and Update end up to date when the kind of sizing is kept (one unless an autoscaler goes off over a wrong count), and none ever does or writes when it is not |
| NodepoolUpdate.LabelsAgreeExactly | internal/controller/kubernetes/nodepool_external.go:674-683 | on distinct observed keys the label check is map equality |
| NodepoolUpdate.LabelsExactIff | internal/controller/kubernetes/nodepool_external.go:674-683 | it is so for every declaration exactly when observed keys are distinct or one has two values |
| NodepoolUpdate.TaintsAgreeExactly | internal/controller/kubernetes/nodepool_external.go:684-699 | a passing taint check over a declaration without repetition is set equality exactly when no observed taint repeats |
| NodepoolUpdate.TaintsExactIff | internal/controller/kubernetes/nodepool_external.go:684-699 | the check is set equality for every declaration without repetition exactly when no observed taint repeats, and for every declaration only on a group without taints |
| NodepoolUpdate.RepeatedTaintsHideDrift | internal/controller/kubernetes/nodepool_external.go:684-699 | whatever taints upstream repeats, some declaration passes the check without being applied in full |
| NodepoolUpdate.PopulateStatus | internal/controller/kubernetes/nodepool_external.go:702-763 | the mirror of the observed group; a zero preset never clears a lock |
| NodepoolUpdate.MirrorRoundTrip | internal/controller/kubernetes/nodepool_external.go:702-763 | declaring what status mirrors gives no metadata drift exactly when observed labels repeat no key |
| NodepoolUpdate.MirrorIsUpToDateIff | internal/controller/kubernetes/nodepool_external.go:702-799 | declaring all that status mirrors leaves nothing to do exactly when observed labels repeat no key and a running autoscaler reports both bounds |
| NodepoolUpdate.ReadyCondition | internal/controller/kubernetes/nodepool_external.go:855-910 | failed exactly when some status says error or fail in any case; available exactly when none does, the pool converged and as many listed nodes as declared say active, started, running, ready or are on, or it rests at a declared zero floor; creating exactly at zero otherwise |
| Versions.ParseLeadingInt | internal/controller/kubernetes/cluster_upgrade.go:171-181 | the leading digits' value, saturating at the largest 64-bit integer, zero without digits |
| Versions.SplitVersion | internal/controller/kubernetes/cluster_upgrade.go:157-168 | the numeric components, never an empty list |
| Versions.VersionNewer | internal/controller/kubernetes/cluster_upgrade.go:136-151 | true exactly when the first difference of the zero-padded components favours the first argument |
| Versions.OrderIsStrict | internal/controller/kubernetes/cluster_upgrade.go:136-151 | the order is irreflexive and asymmetric |
| Versions.NewerTransitive | internal/controller/kubernetes/cluster_upgrade.go:136-151 | the order is transitive |
| Versions.Trichotomy | internal/controller/kubernetes/cluster_upgrade.go:136-151 | newer, older or tied, exactly one |
| Versions.TiesAreTrailingZeros | internal/controller/kubernetes/cluster_upgrade.go:136-151 | ties are equality up to trailing zeros, hence an equivalence |
| Versions.ParsesBack | internal/controller/kubernetes/cluster_upgrade.go:157-168 | written-out components parse back, with or without `v` and build metadata |
| Versions.BuildIgnored | internal/controller/kubernetes/cluster_upgrade.go:157-162 | build metadata never counts, as item 10 of Semantic Versioning 2.0.0 asks |
| Versions.PreReleaseNeverOlder | internal/controller/kubernetes/cluster_upgrade.go:157-181 | for every pre-release tail each identifier after the first dot is one more component: newer than the release exactly when one of them starts with a positive number, tied otherwise, never older, unlike item 11 of Semantic Versioning 2.0.0 |
| ClusterUpgrade.IsAllZero | internal/controller/kubernetes/cluster_upgrade.go:123-130 | all components are zero |
| ClusterUpgrade.VersionReconciler.Reconcile | internal/controller/kubernetes/cluster_upgrade.go:54-119 | verdict and upstream effect of one reconcile, for every answer |
| ClusterUpgrade.ExactlyOneVerdict | internal/controller/kubernetes/cluster_upgrade.go:72-91 | each verdict exactly: only a newer catalog version is sent, a newer one outside the catalog is reported, a version without a positive number is refused first, else downgrade or lateral, lateral being equal numbers |
| ClusterUpgrade.AnswersIff | internal/controller/kubernetes/cluster_upgrade.go:93-119 | the target changes exactly when a sendable version's PATCH gets through; accepted, lost and refused answers are reported as such and never otherwise |
| ClusterUpgrade.BuildChangeIsLateral | internal/controller/kubernetes/cluster_upgrade.go:84-90 | changing build metadata alone is always lateral |
| ClusterUpgrade.OnlyEverNewer | internal/controller/kubernetes/cluster_upgrade.go:54-119 | over every run of edits and rollouts the cluster stays or is strictly newer |
| ClusterUpgrade.OnlyFromCatalog | internal/controller/kubernetes/cluster_upgrade.go:93-119 | over every run, what is rolling out or running and was not so before was declared by an edit whose catalog had it, newer than what then ran |
| ClusterUpgrade.NeverReturns | internal/controller/kubernetes/cluster_upgrade.go:54-119 | a version left behind never comes back |
| ClusterUpgrade.UpgradeConverges | internal/controller/kubernetes/cluster_upgrade.go:93-119 | a newer catalog version whose PATCH gets through is reached, then nothing is left to do |
| ClusterUpgrade.TargetCanStepBack | internal/controller/kubernetes/cluster_upgrade.go:54-58 | during a rollout an edit can replace the target by an older one, since only the reported version is compared |
| RouterIntegration.ReadIntegrationState | internal/controller/kubernetes/router_integration.go:102-146 | the nested loops yield the last listing router and the declared router's network and NAT state |
| RouterIntegration.LinkedToLists | internal/controller/kubernetes/router_integration.go:129-135 | empty exactly when no router lists the cluster, else a listing router |
| RouterIntegration.IntegrationController.Observe | internal/controller/kubernetes/router_integration.go:170-210 | drift and mirrored fields are the observing step |
| RouterIntegration.IntegrationController.Update | internal/controller/kubernetes/router_integration.go:216-260 | the PATCH sent, the link and the record are the updating step |
| RouterIntegration.DriftIffPatch | internal/controller/kubernetes/router_integration.go:170-260 | on one snapshot Observe reports drift exactly when Update sends a PATCH |
| RouterIntegration.ClosedGateIsQuiet | internal/controller/kubernetes/router_integration.go:153-164 | while the gate is closed or the list unreadable nothing is reported, sent or changed |
| RouterIntegration.ObserveMirrors | internal/controller/kubernetes/router_integration.go:170-210 | a readable Observe mirrors whether the link is as declared, or still there; it records a declared link, forgets a completed detach and writes nothing else |
| RouterIntegration.UpdateRecords | internal/controller/kubernetes/router_integration.go:216-260 | an Update records exactly an accepted attach and forgets exactly an accepted or already completed detach |
| RouterIntegration.WaitsIff | internal/controller/kubernetes/router_integration.go:102-164 | an attach waits exactly when no router has the declared id, or the network is known and none of them attaches it, or its last attachment there has no NAT address |
| RouterIntegration.AttachIff | internal/controller/kubernetes/router_integration.go:216-260 | an attaching PATCH is sent exactly when the list can be read, the last router listing the cluster is another and nothing of that makes it wait |
| RouterIntegration.PatchRelinks | internal/controller/kubernetes/router_integration.go:76-90 | a PATCH leaves the target as the only lister and touches no other parent or network |
| RouterIntegration.OneUpdateSettles | internal/controller/kubernetes/router_integration.go:216-260 | with the gate open one Update that reaches the upstream gives the declared link or none, and the next Observe is clean |
| RouterIntegration.PatchesNeedDeclarations | internal/controller/kubernetes/router_integration.go:170-260 | over every run each PATCH names a router some step declared, and a detach needs an earlier declaration |
| RouterIntegration.NeverDeclaredNeverPatched | internal/controller/kubernetes/router_integration.go:216-221 | a cluster that never had a router declared is never patched |
| RouterIntegration.DetachIsRouterBlind | internal/controller/kubernetes/router_integration.go:245-255 | a recorded integration is detached from whichever router holds it |
| SetReconcile.PassShrinks | internal/controller/network/firewall_external.go:226-295 | on any listing a pass keeps every wanted key, adds only wanted ones and takes the budget, or all that no blocked key starves, off the work: unwanted entries plus missing keys |
| SetReconcile.IdlePassIff | internal/controller/network/firewall_external.go:226-295 | a pass changes nothing exactly when all remaining work is starved |
| SetReconcile.KeptEffect | internal/controller/network/firewall_external.go:232-244 | deleting takes out as many unwanted entries as the budget allows and no wanted one, repeated keys included |
| SetReconcile.ChosenEffect | internal/controller/network/firewall_external.go:245-257 | creating adds as many missing keys as the budget allows, in order, none from the first blocked one on |
| SetReconcile.ConvergedIff | internal/controller/network/firewall_external.go:471-481 | the check is key-set equality for every declaration exactly when the listing repeats no key |
| SetReconcile.ConvergedMeans | internal/controller/network/firewall_external.go:471-481 | it holds exactly when nothing is unwanted and as many keys are missing as entries are repeated |
| SetReconcile.RepeatedKeysFoolTheDriftCheck | internal/controller/network/firewall_external.go:471-481 | any listing that repeats a key fails the check against its own keys and passes it against another set with work left |
| Firewall.DesiredRuleSet | internal/controller/network/firewall_external.go:446-469 | first rule per key without an icmp port; the flag is set exactly when a key repeats |
| Firewall.RuleMapKeys | internal/controller/network/firewall_external.go:446-469 | the map's keys are the declared rules' keys and each payload has its key |
| Firewall.DesiredAttachSet | internal/controller/network/firewall_external.go:494-501 | last attachment per key |
| Firewall.RulesConverged | internal/controller/network/firewall_external.go:471-481 | equal counts and every observed key wanted |
| Firewall.AttachConverged | internal/controller/network/firewall_external.go:503-514 | equal counts and every observed key wanted |
| Firewall.UpdatedStaysFormed | internal/controller/network/firewall_external.go:161-295 | whatever succeeds, an Update of a cloud whose rule ids are unique and below the next one leaves such a cloud |
| FirewallController.Controller.Update | internal/controller/network/firewall_external.go:161-198 | rename, rules, attachments under one budget of eight: the specified new upstream state |
| FirewallController.Controller.ReconcileRules | internal/controller/network/firewall_external.go:226-258 | deletes front to back, then creates in key order, until budget or calls run out |
| FirewallController.Controller.ReconcileAttachments | internal/controller/network/firewall_external.go:260-295 | the same for attachments, stopping at a service another group holds |
| FirewallController.Controller.Attach | internal/controller/network/firewall_external.go:299-330 | links exactly when no other group was seen to hold the service; a failed lookup counts as free |
| FirewallTheorems.UpdateSpends | internal/controller/network/firewall_external.go:161-295 | whatever fails, an Update takes exactly the calls it could make (eight, or what succeeds after the rename) off the work, or all that no conflict starves, and only moves towards the spec; when the rename fails nothing changes |
| FirewallTheorems.UpdateShrinks | internal/controller/network/firewall_external.go:161-295 | on any lists a working Update lowers the total work by exactly eight, or by all that no conflict starves, and only moves towards the spec |
| FirewallTheorems.WorkAfter | internal/controller/network/firewall_external.go:42 | after k Updates exactly 8k of the work is gone, or all that no conflict starves |
| FirewallTheorems.RepeatedStaysFormed | internal/controller/network/firewall_external.go:161-295 | any number of Updates keeps rule ids unique and below the next one, so each of the k steps is one that `Controller.Update` makes |
| FirewallTheorems.ConvergesByEights | internal/controller/network/firewall_external.go:42 | without a conflict the spec is reached after k Updates exactly when 8k covers the work |
| FirewallTheorems.ConvergesIff | internal/controller/network/firewall_external.go:260-330 | some number of Updates reaches the spec exactly when no missing service is held by another group |
| FirewallTheorems.ConflictStarves | internal/controller/network/firewall_external.go:282-330 | under a conflict the held service and every missing one sorted after it stay missing for ever |
| FirewallTheorems.UpToDateIff | internal/controller/network/firewall_external.go:106-113 | on any lists the drift check holds exactly when nothing is renamed or unwanted and, list by list, as many keys are missing as entries repeat |
| FirewallTheorems.UpdateIdleIff | internal/controller/network/firewall_external.go:161-295 | a working Update changes nothing exactly when no rename is pending and all remaining work is starved |
| FirewallTheorems.DriftAgreesWithWriter | internal/controller/network/firewall_external.go:106-198 | the check and a working Update disagree exactly on the stuck lists, flagged for ever with nothing to write, and on the overlooked ones, passed with work left; on distinct keys without conflict they agree |
| FirewallTheorems.ListedTwiceIsStuck | internal/controller/network/firewall_external.go:106-198 | a group that lists any key twice is stuck under the declaration of its own content |
| FirewallTheorems.HeldElsewhereIsStuck | internal/controller/network/firewall_external.go:260-330 | for each service that another group holds and this one, on distinct keys, lacks: declaring it on top of the group's own content is flagged with nothing to write |
| FirewallTheorems.AgreesAlwaysIff | internal/controller/network/firewall_external.go:106-198 | in any cloud, check and writer agree about every declaration exactly when the group repeats no key and no other group holds a service it lacks |
| FirewallTheorems.KeysIdentifyRules | internal/controller/network/firewall_external.go:437-443 | a rule is told from every other rule by its key exactly when direction, protocol, port and address hold no pipe, or only the protocol does, spelling icmp twice beside a port |
| FirewallContents.KeysIdentifyServices | internal/controller/network/firewall_external.go:483-492 | a service is told from every other one by its key exactly when its id holds no pipe and its kind none behind the first place |
| FirewallTheorems.OthersUntouched | internal/controller/network/firewall_external.go:161-295 | an Update never changes another group |
| FirewallContents.CreatedAsDeclared | internal/controller/network/firewall_external.go:161-330 | whatever succeeds, only declared rules are created, description included and icmp without a port, and only declared services linked, an empty kind as a balancer; name and description become the declared ones and the policy never changes |
| FirewallContents.DeletesFromTheFront | internal/controller/network/firewall_external.go:226-244 | up to some place every unwanted rule is gone and behind it none, and that is the end of the list unless the budget is spent |
| FirewallContents.UnlinksFromTheFront | internal/controller/network/firewall_external.go:260-281 | the same for services |
| FirewallContents.RejectedIff | internal/controller/network/firewall_external.go:161-198 | a declaration is refused exactly when two rules have one key or the group's policy is not the declared one, DROP when none is |
| FirewallTheorems.UpdateKeepsExclusive | internal/controller/network/firewall_external.go:299-330 | with lookups answered an Update keeps every service in at most one group |
| FirewallTheorems.InterleavingKeepsExclusive | internal/controller/network/firewall_external.go:299-330 | so does any interleaving of any controllers' calls, lookup and link taken together |
| FirewallTheorems.LinkKeepsExclusiveIff | internal/controller/network/firewall_external.go:315-330 | a link keeps every service in at most one group exactly when its lookup is answered or nobody else holds the service |
| RouterRefs.ResolveRouterRefs | internal/controller/network/refs.go:68-155 | the two passes yield the union of explicit and selected attachments, or the first error |
| RouterRefs.FirstPass | internal/controller/network/refs.go:80-122 | a repeated explicit id keeps its place and takes the later entry |
| RouterRefs.SecondPass | internal/controller/network/refs.go:125-149 | selected ids fill only what nobody claimed |
| RouterRefs.UnionMeaning | internal/controller/network/refs.go:68-155 | ids are distinct and exactly the mentioned ones; the last explicit entry wins, else the first selected, which never has NAT |
| RouterRefs.AttachedExactly | internal/controller/network/refs.go:129-149 | an id is attached exactly when explicit or carried by a usable network some selector matches |
| RouterRefs.ListOrderIrrelevant | internal/controller/network/refs.go:260-282 | the order in which networks are listed changes nothing |
| RouterRefs.UnionUnique | internal/controller/network/refs.go:68-155 | the union is determined by the two lists |
| RouterUnion.EntryIs | internal/controller/network/refs.go:80-122 | an explicit entry resolves to its literal id, or that of a readable ready network, with its literal or referenced NAT address and its own settings; it is refused exactly for its reason, the network first |
| RouterUnion.UnionIs | internal/controller/network/refs.go:68-155 | the result holds, once per network, exactly what the last explicit entry for it asks for, else the settings of the first entry whose selector takes it, without NAT |
| RouterUnion.ExplicitFails | internal/controller/network/refs.go:80-122 | the first refused explicit entry decides the error |
| RouterUnion.SelectorsFail | internal/controller/network/refs.go:125-149 | the first selector that does not convert or cannot be listed decides the error |
| Float32.RoundIdempotent | internal/controller/compute/floatingip_bind.go:79-84 | rounding to single precision twice is rounding once |
| Float32.ExactUpTo24Bits | internal/controller/compute/floatingip_bind.go:127-131 | ids of up to 24 bits survive the conversion, the next odd one does not |
| Float32.SentIds | internal/controller/compute/floatingip_bind.go:127-131 | ids below 24 bits are sent as they are; 134217744 is representable, yet 134217740 is sent for it |
| FloatingIp.DedupeStrings | internal/controller/compute/floatingip_bind.go:171-182 | first occurrences in order |
| Text.DedupeIsSet | internal/controller/compute/floatingip_bind.go:171-182 | they are distinct and are the list's elements |
| Text.LeqIff | internal/clients/rgwiam/policy.go:101 | names are sorted by their first difference, a proper prefix first |
| Text.ToLowerIs | internal/controller/network/firewall_external.go:437-443 | folding moves the capital letters and nothing else |
| FloatingIp.StringSetsEqual | internal/controller/compute/floatingip_bind.go:186-197 | holds exactly for equal sets |
| FloatingIp.BindingController.ObserveBound | internal/controller/compute/floatingip_bind.go:39-51 | the candidates whose read-back holder is the given id |
| FloatingIp.BoundIs | internal/controller/compute/floatingip_bind.go:39-51 | they are exactly the held candidates |
| FloatingIp.BindingController.ReconcileBindings | internal/controller/compute/floatingip_bind.go:94-125 | releases, then binds when on, stopping at the first failure |
| FloatingIp.BindingController.Observe | internal/controller/compute/server_external.go:92-105 | the recorded list becomes what is confirmed, against the id the server reports, among desired and recorded; up to date exactly when that is the desired set |
| FloatingIp.BindingController.Update | internal/controller/compute/server_external.go:257-269 | one binding pass over desired and recorded |
| FloatingIp.BindingController.Delete | internal/controller/compute/server_external.go:321-328 | releases the recorded list, stopping at the first failure |
| FloatingIpTheorems.OnlyTheDeltaIsTouched | internal/controller/compute/floatingip_bind.go:94-125 | whatever fails, no address is touched twice, only surplus is released, only shortage is bound and only when on, the rest stands |
| FloatingIpTheorems.PassStopsAtFailure | internal/controller/compute/floatingip_bind.go:94-142 | a pass stops at the first failing call and reports it, otherwise it released all surplus and, when on, bound all shortage, releases first; each address called on has what the call says if it got through |
| FloatingIpTheorems.PassBindsExactly | internal/controller/compute/floatingip_bind.go:94-125 | with the server on and calls working, every desired address reads back as held; a recorded one that is not desired stays held exactly when it was and single precision cannot hold the server id |
| FloatingIpTheorems.OnePassConvergesIff | internal/controller/compute/floatingip_bind.go:127-142 | after a working pass the next Observe is clean exactly when single precision represents the server id, or no recorded address that was dropped from the spec was held |
| FloatingIpTheorems.ImportedOddId | internal/controller/compute/server_external.go:92-105 | the imported server 16777217 looks clean when nothing was recorded, but keeps each address dropped from the spec and stays flagged |
| FloatingIpTheorems.UnrepresentableNeverReleases | internal/controller/compute/server_external.go:257-269 | for every id single precision cannot hold, over every run, a recorded address that is dropped and left alone stays held and no Observe is clean |
| FloatingIpTheorems.TrulyHeldIff | internal/controller/compute/floatingip_bind.go:127-142 | for every server id, after such a pass a desired address is recorded by the next Observe, and really is on this server exactly when it was read back as held and already was, or was not and the id survives being written down |
| FloatingIpTheorems.SmallIdsAreTrue | internal/controller/compute/floatingip_bind.go:79-84 | below 24 bits reading back as held means being held |
| FloatingIpTheorems.ShortenedIdIsNeverBound | internal/controller/compute/floatingip_bind.go:127-142 | server 134217744 leaves its free desired addresses on server 134217740 under a clean Observe |
| FloatingIpTheorems.SteadyRunsTrack | internal/controller/compute/server_external.go:92-105 | for every server id, over every run whose recordings still list what was bound since the last one, no bound address leaves the books |
| FloatingIpTheorems.FixedDesiredIsSteady | internal/controller/compute/server_external.go:257-269 | runs with an unchanged desired list are such runs |
| FloatingIpTheorems.KeptIff | internal/controller/compute/server_external.go:92-105 | for every server id, at a recording a bound address is kept exactly when still desired or recorded |
| FloatingIpTheorems.DroppedBeforeRecordingLeaks | internal/controller/compute/server_external.go:92-105 | an address bound by a pass and dropped from the spec before the next recording is lost, even for Delete |
| FloatingIpTheorems.LeakIsPermanent | internal/controller/compute/server_external.go:92-105 | it stays bound and unrecorded while nobody desires or moves it |
| FloatingIpTheorems.DeleteReleasesAll | internal/controller/compute/server_external.go:321-328 | Delete releases whatever is recorded, wherever it is bound now, and a tracked controller then holds nothing |
| FloatingIpTheorems.DeleteStopsAtFailure | internal/controller/compute/server_external.go:321-328 | Delete too stops at the first failing release and reports it |
| FloatingIpTheorems.RecordedOnce | internal/controller/compute/server_external.go:92-105 | the recorded list repeats no address |

## Left out

- HTTP transport, rate limiting, request signing, XML, and the decoding of JSON, PEM and X.509: calls succeed, fail or lose their answer; decoded values are inputs.
- CdnBudget.BudgetKeyExact: about the text that is hashed, for domains and SANs that are host names and so hold neither comma nor pipe; a collision of the 64-bit hash is not modelled.
- The texts of conditions and events, the connection secret, and purge, preset and creation of a CDN resource: no decision here depends on them.
- Whole-second clock: times are integers in seconds, as status persists them; status writes are taken to be saved in the CDN model, while the nodepool model lets them be lost.
- Case folding is ASCII only (`Text.ToLower`), which is what protocol, direction, effect and node-state words use.
- Access levels other than the three of the API enumeration: the Go code would treat them as read.
- CdnConvergence.CustomConverges: custom mode only; the others are `CdnLetsEncrypt.LetsEncryptConverges` and `CdnRemoval.RemovalConverges`.
- CdnLetsEncrypt.LetsEncryptConverges: starts with a certificate listed; whether and when an issuance is granted is decided by the platform, so up to then only safety, budget and spacing are stated.
- CdnRemoval.RemovalConverges: counts a certificate only when it is listed under the resource, which is all that mode reads; an uploaded one stays on the account.
- Convergence after a suspension, an unresolved secret or a failing list: the pass returns early; the run lemmas cover such passes, the convergence lemmas do not.
- NodepoolIdentity.NeverTwoGroups: the declared identity is fixed during the run and nobody else creates a group of that identity.
- NodepoolUpdate.LabelsAgreeExactly: asks for distinct observed keys; `LabelsExactIff` gives the exact condition.
- NodepoolUpdate.TaintsAgreeExactly: asks for a declaration without repetition; `TaintsExactIff` gives the exact condition for both families.
- NodepoolUpdate.PopulateStatus: leaves out the upstream id, the sizing column and the node list, which are copied.
- CdnReconciler.CdnController.Observe: starts from a resource that exists; a missing one and the purge annotation decide nothing about certificates or settings.
- CdnReconciler.CdnController.SslInputs: the budget key is the text before its 64-bit hash.
- RouterRefs.ResolveRouterRefs: leaves out the project reference and set-based selector expressions.
- PolicyTheorems.PoliciesEqualExact: both documents are free of separators; `ComparesExactlyIff` says for which documents nothing need be asked of the other one.
- The node list call after a nodepool's status is filled: its failure changes only the returned error.
- Label selectors are key-value matches; a router's static routes are not modelled.
- The firewall's Create: it uses the same rule and attachment writers without a budget.
- FirewallTheorems.InterleavingKeepsExclusive: a lookup and its link are one step; a lookup overtaken by another controller's link counts as not answered, and `LinkKeepsExclusiveIff` says what its link then does.
- The cluster update around the version and router steps, catalog resolution, zones, projects, registries and add-ons: single-field comparisons and plumbing.
- A read that fails between two writes of a firewall or nodepool Update: it ends the pass like a failed write.
