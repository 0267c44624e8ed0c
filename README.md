# Operation helpers of the garden control plane

This project models the helpers of the `pkg/operation/common` package of the
Gardener control plane and proves properties about them. The package's
implementation file is not part of this model. What each helper must do is
taken from the cases its tests assert in `pkg/operation/common/utils_test.go`.

- `ComputeOffsetIP(subnet, offset)` (module `OffsetIP`, `offset_ip.dfy`)
  computes the address at `offset` inside a subnet.
  - An address is a big-endian byte string: 4 bytes for IPv4, 16 for IPv6.
  - A subnet is its base address plus a prefix length, as CIDR parsing
    returns it.
  - The offset is added to the base byte by byte, with the carry propagated
    towards the first byte.
  - The call fails when there is no subnet, when the sum leaves the subnet's
    host range, and, for IPv4 only, when the sum is the subnet's broadcast
    address (all host bits set).
- `GenerateAddonConfig(values, enabled)` (module `AddonConfig`,
  `addon_config.dfy`) builds an addon's chart values. A disabled addon gets
  only `"enabled": false`. An enabled one gets every entry of `values` plus
  `"enabled": true`.
- `FilterEntriesByPrefix(prefix, entries)` (module `EntryFilter`,
  `entry_filter.dfy`) keeps, in order, the entries that start with `prefix`.
- `DeleteStatefulSetsHavingDeprecatedRoleLabelKey(ctx, c, keys)` (module
  `RoleLabelCleanup`, `role_label_cleanup.dfy`) walks the keys in order.
  - It fetches each StatefulSet through the API client.
  - A key that is not found is skipped.
  - Any other Get error stops the walk and is returned unchanged.
  - A StatefulSet whose `.spec.selector.matchLabels` holds the deprecated
    label key `garden.sapcloud.io/role` is deleted.

  The client is the class `Client`. It holds a map of stored StatefulSets, a
  fixed map of keys whose Get fails (with the error's message), and the log of
  calls made on it. The cleanup is a method with a loop over this object. Its
  postcondition ties the new store, the returned error and the new calls to
  the function `Sweep` of the old store. Lemmas give `Sweep` in closed form.

`wrappers.dfy` holds the `Option` and `Result` datatypes. They stand for Go's
nil pointers and `(value, error)` pairs.

## Model

| member | source | states |
|---|---|---|
| `OffsetIP.ComputeOffsetIP` | pkg/operation/common/utils_test.go:44-101 | a successful result has the base's length: 4 bytes for an IPv4 subnet, 16 for an IPv6 one |
| `OffsetIP.ComputeOffsetIPSpec` | pkg/operation/common/utils_test.go:44-101 | let h be the base's position in its host range. The call fails with "too small" exactly when h + offset passes the range. It fails with "broadcast" exactly when the subnet is IPv4 and h + offset is the range's last address. Otherwise it succeeds, and the result has the base's length and is worth base + offset |
| `OffsetIP.ComputeOffsetIPNil` | pkg/operation/common/utils_test.go:54-59 | without a subnet the call returns the nil-subnet error and no address, whatever the offset |
| `OffsetIP.ComputeOffsetIPAligned` | pkg/operation/common/utils_test.go:61-75 | for a subnet whose base is its network address, success holds exactly when the offset is below the host count (IPv6) or below the host count minus one (IPv4) |
| `OffsetIP.AddWithCarry` | pkg/operation/common/utils_test.go:44-52 | carry-propagating byte addition of the offset to the base (the results asserted at lines 44-52 and 79-86); the new bytes have the input's length |
| `OffsetIP.AddWithCarryValue` | pkg/operation/common/utils_test.go:44-52 | byte-wise addition with a propagated carry is integer addition: the new bytes plus the carry out of the first byte equal base + offset |
| `OffsetIP.ExampleIPv4` | pkg/operation/common/utils_test.go:44-52 | 100.64.0.0/13 with offset 10 gives the 4 bytes 100.64.0.10 |
| `OffsetIP.ExampleIPv6` | pkg/operation/common/utils_test.go:79-86 | fc00::/8 with offset 10 gives the 16 bytes of fc00::a |
| `OffsetIP.ExampleTooSmall` | pkg/operation/common/utils_test.go:61-67 | 100.64.0.0/32 and fc00::/128 with offset 10 both fail as too small (the IPv6 case is asserted at lines 95-101) |
| `OffsetIP.ExampleBroadcast` | pkg/operation/common/utils_test.go:69-75 | 10.0.0.0/24 with offset 255 fails as the broadcast address |
| `AddonConfig.GenerateAddonConfig` | pkg/operation/common/utils_test.go:105-192 | "enabled" maps to the switch's value. The keys are exactly {"enabled"} when disabled, and the keys of `values` plus "enabled" when enabled. Every other value is carried over unchanged |
| `AddonConfig.GenerateAddonConfigSize` | pkg/operation/common/utils_test.go:122-174 | the result has size 1 when disabled. When enabled it has size 1 + \|values\| for values without the "enabled" key, and \|values\| otherwise |
| `AddonConfig.DisabledIgnoresValues` | pkg/operation/common/utils_test.go:176-192 | a disabled addon's configuration is exactly {"enabled": false} for any values, nil or not |
| `AddonConfig.GenerateAddonConfigIdempotent` | pkg/operation/common/utils_test.go:154-174 | a consequence of the model that no test runs: regenerating from a generated configuration with the same switch gives it back unchanged |
| `AddonConfig.Examples` | pkg/operation/common/utils_test.go:106-192 | the five tested cases: nil values with the switch off, nil values with it on, empty values with it on, and a single "foo": "bar" value with it on and off; nil and empty Go maps are the same Dafny map `map[]`, so the lemma states four equations plus the size 2 of the enabled "foo" case |
| `EntryFilter.FilterEntriesByPrefix` | pkg/operation/common/utils_test.go:359-386 | an entry is in the result exactly when it is in the input and starts with the prefix; the result is no longer than the input |
| `EntryFilter.FilterKeepsMultiplicity` | pkg/operation/common/utils_test.go:359-369 | an entry with the prefix occurs as often in the result as in the input; an entry without it does not occur |
| `EntryFilter.FilterAppend` | pkg/operation/common/utils_test.go:359-369 | filtering a concatenation gives the concatenation of the filtered parts, so input order is kept |
| `EntryFilter.FilterAllMatch` | pkg/operation/common/utils_test.go:371-381 | when every entry has the prefix the result is the input |
| `EntryFilter.FilterNoneMatch` | pkg/operation/common/utils_test.go:383-386 | when no entry has the prefix the result is empty |
| `EntryFilter.FilterIdempotent` | pkg/operation/common/utils_test.go:359-386 | a consequence of the model that no test runs: filtering the result again changes nothing |
| `EntryFilter.Examples` | pkg/operation/common/utils_test.go:359-386 | the three documented cases with prefix "role" |
| `RoleLabelCleanup.Lookup` | pkg/operation/common/utils_test.go:243-268 | a Get succeeds exactly for a stored key without an injected failure, and then returns the stored StatefulSet itself (lines 263-264). It returns not-found exactly for a key that is neither stored nor failing. A key with an injected failure returns that very error (lines 246 and 249) |
| `RoleLabelCleanup.Client.constructor` | pkg/operation/common/utils_test.go:208-237 | the client starts with the given store and failures and an empty call log |
| `RoleLabelCleanup.Client.Get` | pkg/operation/common/utils_test.go:246-256 | returns the lookup's result and appends a Get of the key to the log, changing nothing else |
| `RoleLabelCleanup.Client.Delete` | pkg/operation/common/utils_test.go:280-285 | removes the key from the store at once and appends a Delete of the key to the log |
| `RoleLabelCleanup.DeleteStatefulSetsHavingDeprecatedRoleLabelKey` | pkg/operation/common/utils_test.go:243-292 | the new store, the returned error and the calls appended to the log are those of `Sweep` over the old store and the keys |
| `RoleLabelCleanup.Sweep` | pkg/operation/common/utils_test.go:243-292 | the walk as a function of the store: one Get per key in list order; a not-found key is skipped; any other Get error stops the walk and is returned; a labelled StatefulSet is deleted right after its Get. Its contract states that the walk never adds or changes a kept object and that its first call is the Get of the first key |
| `RoleLabelCleanup.FirstFailure` | pkg/operation/common/utils_test.go:243-250 | the position of the first key whose Get fails with an error other than not-found (or the list's length): no key before it fails, and the key at it does |
| `RoleLabelCleanup.SweepClosedForm` | pkg/operation/common/utils_test.go:243-292 | the walk deletes exactly the labelled StatefulSets among the keys before the first failing one. Every other object is left as it was. The error returned is that key's Get error, or none when no key fails |
| `RoleLabelCleanup.SweepGets` | pkg/operation/common/utils_test.go:277-288 | Gets are made for the keys in list order, up to and including the first failing key; later keys are not touched |
| `RoleLabelCleanup.SweepDeletes` | pkg/operation/common/utils_test.go:270-292 | there is a Delete for a key exactly when its StatefulSet is labelled and comes before the first failing key, and each Delete comes right after the Get of its key |
| `RoleLabelCleanup.SweepDeletesOnce` | pkg/operation/common/utils_test.go:270-292 | each key is deleted exactly once if its StatefulSet is labelled and comes before the first failing key, and never otherwise; a labelled key listed twice is deleted once, because its second Get finds nothing |
| `RoleLabelCleanup.SweepIdempotent` | pkg/operation/common/utils_test.go:262-268 | a consequence of the model that no test runs: with no failing keys, a second walk over the same keys deletes nothing and returns no error |
| `RoleLabelCleanup.ExampleGetError` | pkg/operation/common/utils_test.go:243-250 | a "fake err" on the first key is returned and only that key is fetched |
| `RoleLabelCleanup.ExampleMissing` | pkg/operation/common/utils_test.go:252-260 | two missing StatefulSets are fetched and skipped without error |
| `RoleLabelCleanup.ExampleWithoutLabel` | pkg/operation/common/utils_test.go:262-268 | two StatefulSets without the label key are fetched and left alone |
| `RoleLabelCleanup.ExampleWithLabel` | pkg/operation/common/utils_test.go:270-292 | two labelled StatefulSets are fetched and deleted in the order Get, Delete, Get, Delete |

## Left out

- The implementation file of `pkg/operation/common` is not part of this
  model. The four helpers follow what their tests assert. Where the tests
  say nothing, the model takes the plain reading of the behaviour asserted.
- ComputeOffsetIP: the offset is a natural number; negative offsets are not
  modelled.
- ComputeOffsetIP: parsing a CIDR string is not modelled. The subnet is given
  as its base bytes and prefix length.
- ComputeOffsetIP: an IPv4 address stored in 16-byte form is not modelled.
  The address family is decided by the base's length, 4 or 16 bytes.
- GenerateAddonConfig: chart values are a small `Value` datatype (boolean,
  integer, string) instead of Go's untyped interface values.
- FilterEntriesByPrefix: entries and the prefix are character sequences,
  not Go's byte strings. The two prefix tests agree on valid UTF-8 text.
- DeleteStatefulSetsHavingDeprecatedRoleLabelKey: after each delete, the
  source waits with repeated Gets until the object is gone (lines 281-282 and
  286-287). This is polling I/O, so `Client.Delete` removes the key at once.
- DeleteStatefulSetsHavingDeprecatedRoleLabelKey: a failing Delete is not
  modelled; the tests show only deletes that succeed. The context value and
  the StatefulSet fields other than the selector's labels are not modelled
  either.
- DeleteSeedLoggingStack (lines 295-343): it is a fixed list of client
  deletes with no decision logic.
- The SecretBinding controller (its worker pool, its queue and its shutdown
  wait in `pkg/controllermanager/controller/secretbinding/secretbinding.go`)
  is concurrent code built on client-go's informers and work queues. It is
  not part of this model.
- The Bastion extension types (`pkg/apis/extensions/v1alpha1/types_bastion.go`)
  are schema only. Their immutability rules are comments that no code shown
  enforces.
