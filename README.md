# NeoMutt typed config accessors and address-list removal, in Dafny

This project models two small parts of NeoMutt.

**Typed config accessors** (`config_helpers.dfy`, module `ConfigHelpers`).
These are the eight functions `cs_subset_address`, `_bool`, `_long`, `_number`,
`_quad`, `_regex`, `_slist` and `_string`. Each one reads a config item by name
from a config subset, and each runs the same cascade of guards:

1. a null subset or null name gives the kind's sentinel;
2. an inheritance lookup that finds nothing gives the sentinel;
3. an element whose base type (`DTYPE` of its type tag) is not the accessor's
   `DT_*` gives the sentinel;
4. a native getter result of `INT_MIN` gives the sentinel;
5. otherwise the accessor returns the native value, cast to its C type.

The sentinels are NULL, `false`, `0`, `0` and `MUTT_ABORT`. `FetchNative` is
that cascade, written once. Each accessor matches on its outcome. `GuardedGet`
is one generic accessor indexed by `Kind`, and `AccessorIsGuardedGet` proves
that all eight accessors are instances of it.

A subset is modelled as a map from name to element. An element holds a type tag
(a base type plus flag bits) and the native value its getter yields.

The C casts are written out explicitly:
- `(bool) v` is `v != 0`.
- `(long) v` is the identity, because `long` and `intptr_t` have the same
  width on LP64.
- `(short) v` wraps to 16 bits in two's complement.
- `(enum QuadOption) v` first narrows the 64-bit value to the enum's `int`
  (two's-complement wrap to 32 bits), then keeps that integer. An `int` that
  is not one of the named codes becomes an unnamed enum value.
- A pointer cast makes 0 into NULL and any other value into a reference
  carrying exactly those bits.

**Removing one node from an address list** (`address_list.dfy`, module
`Addresses`). An `AddressList` is a tail queue of `Address` nodes, modelled as a
class whose `nodes` field is the sequence of node references, from first to
last. A node carries its own link field, so it can be linked into the queue only
once (`Valid`).

- `Append` (`mutt_addrlist_append`) links a node in at the tail.
- `FreeOne` (`mutt_addrlist_free_one`) does nothing when either argument is
  NULL. Otherwise it unlinks exactly the given node, chosen by identity, and
  leaves the rest in order.
- `Without` is the independent reference definition of unlinking: it removes
  the first occurrence of a node and is proved to shrink the list by one and
  to remove exactly one copy.
- `FreeOneNullScenario` and `FreeOneScenario` replay the test's blocks.

Where the documentation and the code disagree, the model follows the code. The
doc comment of `cs_subset_quad` says "0 Error", but all four error paths return
`MUTT_ABORT`.

## Model

| member | source | states |
|---|---|---|
| `ConfigHelpers.DType` | config/helpers.c:55 | Definition of the abstraction, not a proved property: DTYPE is the base type of an element's type tag, whatever its flag bits |
| `ConfigHelpers.CreateInheritance` | config/helpers.c:51 | Definition of the abstraction, not a proved property: the lookup finds nothing exactly when the subset has no element of that name, and otherwise returns that element |
| `ConfigHelpers.NativeGet` | config/helpers.c:58 | Definition of the abstraction, not a proved property: the getter yields the element's stored native value, an intptr_t, where INT_MIN signals an error |
| `ConfigHelpers.FetchNative` | config/helpers.c:48-60 | The guard cascade, one iff per outcome: null argument exactly when sub or name is null; no element exactly when the lookup fails; type mismatch exactly when the element's DTYPE differs; getter error exactly when the getter yields INT_MIN; the native value (never INT_MIN) otherwise |
| `ConfigHelpers.SubsetAddress` | config/helpers.c:46-63 | NULL exactly when a guard fails or the stored native value is 0 (the empty address); otherwise a reference carrying exactly the stored native bits |
| `ConfigHelpers.SubsetBool` | config/helpers.c:72-89 | true iff a Bool item passes every guard and its native value is non-zero; so false on every failure |
| `ConfigHelpers.SubsetLong` | config/helpers.c:98-115 | 0 on every failure, the native value itself on success, and never INT_MIN |
| `ConfigHelpers.SubsetNumber` | config/helpers.c:124-141 | always within the short range; 0 on every failure; on success congruent to the native value modulo 2^16 |
| `ConfigHelpers.SubsetQuad` | config/helpers.c:150-167 | MUTT_ABORT on every failure (not 0, as the doc comment says); always a well-formed enum value with an int-sized code; on success that code is congruent to the native value modulo 2^32 |
| `ConfigHelpers.QuadNarrowsToInt` | config/helpers.c:162-166 | A Quad item whose native value is 0x1_0000_0001 reads back as MUTT_YES: the cast keeps only the low 32 bits |
| `ConfigHelpers.SubsetRegex` | config/helpers.c:176-193 | NULL exactly when a guard fails or the stored native value is 0 (the empty regex); otherwise a reference carrying exactly the stored native bits |
| `ConfigHelpers.SubsetSlist` | config/helpers.c:202-219 | NULL exactly when a guard fails or the stored native value is 0 (the empty string list); otherwise a reference carrying exactly the stored native bits |
| `ConfigHelpers.SubsetString` | config/helpers.c:228-245 | NULL exactly when a guard fails or the stored native value is 0 (the empty string); otherwise a reference carrying exactly the stored native bits |
| `ConfigHelpers.ToShort` | config/helpers.c:140 | The (short) cast lands in [-32768, 32767] and is congruent to its input modulo 2^16 |
| `ConfigHelpers.ToShortKeepsShorts` | config/helpers.c:140 | A value already in the short range is unchanged by the cast |
| `ConfigHelpers.ToInt` | config/helpers.c:166 | The narrowing to the enum's int lands in [-2^31, 2^31 - 1] and is congruent to its input modulo 2^32 |
| `ConfigHelpers.ToIntKeepsInts` | config/helpers.c:166 | A value already in the int range is unchanged by the narrowing |
| `ConfigHelpers.AsPointer` | config/helpers.c:62 | The pointer cast keeps the bits; the result is NULL iff the value is 0 |
| `ConfigHelpers.QuadOf` | config/helpers.c:166 | An int read as the enum gives a well-formed value whose code is that int |
| `ConfigHelpers.QuadOfCode` | config/helpers.c:166 | Casting a well-formed enum value's code back gives the same value (round trip with QuadOf) |
| `ConfigHelpers.AccessorIsGuardedGet` | config/helpers.c:46-245 | Each of the eight accessors equals the generic guarded get: the kind's cast of the native value if every guard passes, its sentinel otherwise |
| `ConfigHelpers.NullArgumentGivesSentinel` | config/helpers.c:48-49 | A null sub or name stops at the first guard and every accessor returns its sentinel (NULL, false, 0, MUTT_ABORT) |
| `ConfigHelpers.MissingElementGivesSentinel` | config/helpers.c:51-53 | A name the inheritance lookup does not resolve gives every accessor's sentinel |
| `ConfigHelpers.TypeMismatchGivesSentinel` | config/helpers.c:55-56 | An element of another base type gives the sentinel whatever its value (e.g. bool on a DT_LONG item is false, string on a DT_REGEX item is NULL) |
| `ConfigHelpers.GetterErrorGivesSentinel` | config/helpers.c:58-60 | A getter result of INT_MIN gives every accessor's sentinel |
| `ConfigHelpers.AtMostOneAccessorSucceeds` | config/helpers.c:55-56 | If two accessors both reach their success path on the same element, they are the same accessor, the one whose DT_* is the element's DTYPE |
| `ConfigHelpers.DependsOnlyOnElement` | config/helpers.c:51-62 | Two lookups resolving to elements with the same base type and native value give equal results, whatever the subset, name or flag bits |
| `ConfigHelpers.SentinelIsAmbiguous` | config/helpers.c:43-44 | Every kind has a legitimate stored value (not INT_MIN) that casts to its sentinel, so "empty" and "error" cannot be told apart |
| `Addresses.Without` | test/address/mutt_addrlist_free_one.c:58-86 | Unlinking a present node shrinks the list by exactly one (13 to 12); unlinking an absent one keeps the length |
| `Addresses.WithoutMultiset` | test/address/mutt_addrlist_free_one.c:58-86 | The nodes left are the old nodes minus exactly one copy of the unlinked node, and nothing else |
| `Addresses.WithoutAt` | test/address/mutt_addrlist_free_one.c:61-84 | Unlinking the node at position i leaves the nodes before it and the nodes after it in their original order |
| `Addresses.WithoutKeepsOthers` | test/address/mutt_addrlist_free_one.c:49-70 | Removal is by identity: every node other than the removed one is kept, including one whose fields equal its fields |
| `Addresses.WithoutDistinct` | test/address/mutt_addrlist_free_one.c:60-86 | In a list without repeats, the unlinked node is gone and the list stays without repeats |
| `Addresses.NeighboursJoin` | test/address/mutt_addrlist_free_one.c:61-86 | After unlinking an inner node, its predecessor is followed directly by its former successor |
| `Addresses.AppendThenWithout` | test/address/mutt_addrlist_free_one.c:56-60 | Unlinking a node just appended at the tail gives back the list before the append |
| `Addresses.Address.constructor` | test/address/mutt_addrlist_free_one.c:53-55 | A new address holds exactly the given display name and mailbox |
| `Addresses.AppendNew` | test/address/mutt_addrlist_free_one.c:53-56 | A fresh address with the given name and mailbox is linked in at the tail; the list stays valid |
| `Addresses.AddressList.constructor` | test/address/mutt_addrlist_free_one.c:47 | TAILQ_HEAD_INITIALIZER: a valid, empty list |
| `Addresses.AddressList.First` | test/address/mutt_addrlist_free_one.c:61 | TAILQ_FIRST: NULL iff the list is empty, otherwise the first node |
| `Addresses.AddressList.Next` | test/address/mutt_addrlist_free_one.c:63 | TAILQ_NEXT: NULL iff the node is the last one, otherwise the node right after it |
| `Addresses.AddressList.NextWalksInOrder` | test/address/mutt_addrlist_free_one.c:61-86 | In a valid list, following Next from position i gives position i + 1, and NULL after the last node |
| `Addresses.AddressList.Append` | test/address/mutt_addrlist_free_one.c:56-57 | The node is added at the tail and becomes the last element; the list stays valid |
| `Addresses.AddressList.FreeOne` | test/address/mutt_addrlist_free_one.c:34-60 | A NULL list or NULL node changes nothing; otherwise the new list is exactly the old one with that node unlinked, and it stays valid |
| `Addresses.AppendSample` | test/address/mutt_addrlist_free_one.c:48-51 | Appends six fresh nodes with the sample's mailboxes in order, the fifth being "Another <john@doe.org>" |
| `Addresses.FreeOneNullScenario` | test/address/mutt_addrlist_free_one.c:34-44 | The test's NULL cases: freeing from a NULL list is accepted and has no list to change; freeing a NULL node from a zeroed list (modelled as an empty list) leaves it empty and valid |
| `Addresses.FreeOneScenario` | test/address/mutt_addrlist_free_one.c:46-87 | The test's thirteen-node scenario: twelve nodes are left, with the expected mailboxes in order; the removed node is gone; the node with equal fields survives; the walk ends in NULL after the twelfth node |

## Left out

- `cs_subset_create_inheritance` and `cs_subset_he_native_get` are not part of this model. The lookup is a map from name to element, and the getter returns the element's stored value. The scope and parent-chain resolution behind them, and the element the lookup may create, are not modelled, so the model says nothing about whether an accessor changes the subset.
- The numeric values of `QuadOption` come from quad.h, which is not part of this model. The codes used are -1 (MUTT_ABORT), 0, 1 (MUTT_YES), 2 and 3, as in quad.h. The proofs need the codes to be distinct and inside the 32-bit `int` range, with MUTT_ABORT different from INT_MIN (`SubsetQuad`, `SentinelIsAmbiguous`); `QuadNarrowsToInt` also relies on MUTT_YES being 1.
- `INT_MIN` is taken as -2^31, the value for a 32-bit `int`. `long` and `intptr_t` are taken as 64-bit (LP64).
- ConfigHelpers.SubsetQuad: takes the enum's underlying type to be a 32-bit `int` and out-of-range conversions to wrap, as GCC and Clang do; the C standard leaves both to the implementation.
- The zero-initialised `AddressList` of the test's second block is modelled by the empty list the `AddressList` constructor makes.
- The contents of `Address`, `Regex` and `Slist` objects are not modelled. A pointer result is an opaque reference.
- `mutt_addrlist_parse` is not part of this model. `AppendSample` builds the six parsed addresses directly.
- Releasing memory in `mutt_addrlist_free_one` is not modelled, only the unlinking.
- Addresses.AddressList.FreeOne: requires a non-null node to be linked into the given list. This is the model's assumption: the test only frees a linked node, and the body of `mutt_addrlist_free_one` is not part of this model, so freeing an unlinked node is not modelled.
- Addresses.AddressList.Append: requires the node not to be in the list already. Null arguments to `mutt_addrlist_append` are not modelled because its body is not part of this model.
- A node linked into two different lists at once is not ruled out, because the model tracks no links across lists.
- Update in place of the doubly-linked `TAILQ` pointers is modelled as reassigning the `nodes` sequence.
- The test harness macros and the string comparison helpers are left out. The test's checks become postconditions of `FreeOneNullScenario` and `FreeOneScenario`.
