# Carrier identity resolver

A Dafny model of the carrier identity resolver of the ACD dashboard
(`src/lib/carriers.ts`). It takes a mobile country code / mobile network code
pair, the MCC/MNC identifiers of ITU-T Recommendation E.212, and produces two things:

- **`getCarrierName`** renders the pair as the key `"${countryId}-${providerId}"`
  and looks the key up in the static US table `CARRIER_NAMES`. It returns the
  table's name, or the key itself when the table has no entry.
- **`getCarrierColor`** does the same lookup, using `""` when the key is missing.
  It then tries seven case-sensitive `includes` tests in a fixed order:
  Verizon, AT&T, T-Mobile, Sprint, US Cellular, Dish, FirstNet. The first marker
  found picks the colour; if none is found the result is gray `#6b7280`.

The files:

- `decimal.dfy` (module `Decimal`) renders an integer the way a JavaScript
  template literal does: an optional minus sign, then the digits with no
  leading zero. It also reads a digit string back as a number.
- `strings.dfy` (module `Strings`) models `String.prototype.includes` and proves
  it equivalent to "the marker occurs at some index".
- `carriers.dfy` (module `Carriers`) holds:
  - the table, entry for entry, in the source's seven commented blocks;
  - the lookup key, `getCarrierName` and `getCarrierColor`;
  - a reference first-match over the ordered `(marker, colour)` rules;
  - the lemmas about them.

What the lemmas establish about the code as written:

- The key rendering is injective. A pair outside the table therefore gets a
  fallback name that no other pair shares.
- Among the keys `a-b` made of two digit strings, a key is rendered by some
  pair exactly when neither part has a leading zero (other than "0" itself).
  Negative codes render with a minus sign and fall outside this statement;
  they never match the table, because every table key starts with '3'
  (TableEntry). Sixteen table keys write the network code with a leading
  zero, for example `310-004` and `311-000`. No pair of integers can ever look
  those keys up: (310, 4) renders as `310-4`, misses the table, and is shown as
  `310-4` in gray. Every other table key is reached by its own codes.
- No table name is empty, so the `||` fallback fires exactly on a missing key.
- The colour chain equals first-match over the ordered rules. Its result is
  always one of the eight literal colours, and every pair outside the table is
  gray.
- "AT&T FirstNet" is AT&T blue and "Sprint (T-Mobile)" is T-Mobile magenta,
  because an earlier marker shadows the later one. For every table name, the
  first match is never the Sprint rule and never the FirstNet rule, so no pair
  is ever shown in `#ffe100` or `#003366`. Every regional name contains no
  marker at all and is gray.

## Model

| member | source | states |
|---|---|---|
| Decimal.Digits | src/lib/carriers.ts:115 | a natural number renders as a canonical digit string (non-empty, all digits, no leading zero), starting with '0' only for zero |
| Decimal.NumberToString | src/lib/carriers.ts:115 | `${x}` for an integer: starts with '-' exactly for negatives, and the rest is a canonical digit string |
| Decimal.DigitsRoundTrip | src/lib/carriers.ts:115 | reading back the rendering of n gives n |
| Decimal.CanonicalRoundTrip | src/lib/carriers.ts:115 | every canonical digit string is the rendering of its own value, so canonical strings are exactly the renderings |
| Decimal.NumberToStringInjective | src/lib/carriers.ts:115 | distinct integers render to distinct strings |
| Strings.Includes | src/lib/carriers.ts:123-129 | `s.includes(marker)` holds only if the marker is no longer than s and its first character occurs in s |
| Strings.IncludesIff | src/lib/carriers.ts:123-129 | `includes` holds exactly when the marker occurs at some index of s |
| Strings.MissingCharExcludes | src/lib/carriers.ts:123-129 | a name lacking one character of a marker does not include it |
| Strings.OccurrenceIncluded | src/lib/carriers.ts:123-129 | an occurrence at a known index is found by `includes` |
| Carriers.Key | src/lib/carriers.ts:115 | the key `${countryId}-${providerId}`: its separator is the first '-' after the first character, with only digits before it; KeyInjective states that distinct pairs give distinct keys, and ReachableIff which unsigned keys it produces |
| Carriers.LookupOr | src/lib/carriers.ts:116 | `CARRIER_NAMES[key] \|\| fallback`: the table value when the key is present with a non-empty value, the fallback when the key is missing or its value is ""; NoEmptyNames shows the second case arises only for a missing key |
| Carriers.CarrierName | src/lib/carriers.ts:114-117 | getCarrierName: the table value when the rendered key is in the table, the rendered key itself otherwise |
| Carriers.CarrierNameNonEmpty | src/lib/carriers.ts:114-117 | getCarrierName never returns the empty string |
| Carriers.CarrierColor | src/lib/carriers.ts:119-132 | getCarrierColor always returns one of the eight literal colours, and gray for a key outside the table |
| Carriers.ColorOfName | src/lib/carriers.ts:123-131 | the if-chain on a resolved name returns one of the eight literal colours |
| Carriers.FirstMatch | src/lib/carriers.ts:123-131 | the index of the first rule whose marker the name includes: that rule matches and none before it does, or no rule matches |
| Carriers.RuleColor | src/lib/carriers.ts:123-131 | first-match dispatch: either some rule's marker is included, no earlier rule's is, and the result is that rule's colour, or no marker is included and the result is the default |
| Carriers.ColorChainIsFirstMatch | src/lib/carriers.ts:123-131 | the if-chain equals RuleColor over `ColorRules`, the seven (marker, colour) pairs in source order, with gray as the default |
| Carriers.ColorFollowsName | src/lib/carriers.ts:120-121 | the colour is the chain applied to getCarrierName's result for a table key, and gray for any other pair |
| Carriers.SameNameSameColor | src/lib/carriers.ts:119-132 | any two pairs resolved to the same name get the same colour, on and off the table: the colour is a function of the name |
| Carriers.VerizonBlock | src/lib/carriers.ts:4-39 | the constant `VerizonEntries`: every Verizon key is a well-formed "3dd-ddd" key, zero-padded only if listed as such, and names "Verizon Wireless" |
| Carriers.AttBlock | src/lib/carriers.ts:41-52 | the constant `AttEntries`: every AT&T key is well formed and names "AT&T" or "AT&T FirstNet" |
| Carriers.TMobileBlock | src/lib/carriers.ts:54-71 | the constant `TMobileEntries`: every T-Mobile key is well formed and names "T-Mobile" |
| Carriers.SprintBlock | src/lib/carriers.ts:73-77 | the constant `SprintEntries`: every Sprint key is well formed and names "Sprint (T-Mobile)" |
| Carriers.UsCellularBlock | src/lib/carriers.ts:79-89 | the constant `UsCellularEntries`: every US Cellular key is well formed and names "US Cellular" |
| Carriers.DishBlock | src/lib/carriers.ts:91-93 | the constant `DishEntries`: every Dish key is well formed and names "Dish Network" |
| Carriers.RegionalBlock | src/lib/carriers.ts:95-111 | the constant `RegionalEntries`: every regional key is well formed and names one of the fourteen regional carriers |
| Carriers.TableEntry | src/lib/carriers.ts:3-112 | the constant `CarrierNames` (CARRIER_NAMES, the union of the seven block constants): every entry has a well-formed key, a leading-zero network code only on the sixteen zero-padded keys, and one of the table's 21 names |
| Carriers.BlockKeyInTable | src/lib/carriers.ts:3-112 | a key of any block constant is a key of `CarrierNames` |
| Carriers.TableValue | src/lib/carriers.ts:3-112 | a lookup in `CarrierNames` reads the value of the last block constant that holds the key |
| Carriers.ZeroPaddedKeysInTable | src/lib/carriers.ts:3-112 | each of the sixteen zero-padded keys is in the table |
| Carriers.ZeroPaddedNetworkCode | src/lib/carriers.ts:3-112 | the zero-padded keys are seven characters long with '0' as the first network-code digit |
| Carriers.TableNameText | src/lib/carriers.ts:3-112 | every table name is non-empty and contains no decimal digit |
| Carriers.NoEmptyNames | src/lib/carriers.ts:116 | no table value is "", so `CARRIER_NAMES[key] \|\| fallback` falls back only on a missing key |
| Carriers.KeyInjective | src/lib/carriers.ts:115 | distinct pairs render to distinct keys |
| Carriers.ReachableIff | src/lib/carriers.ts:115 | "a-b" with digit strings a and b is the key of some pair exactly when both are canonical |
| Carriers.WellFormedKeyReachability | src/lib/carriers.ts:115 | a well-formed key is reachable exactly when its network code has no leading zero |
| Carriers.TableReachability | src/lib/carriers.ts:3-112 | a table key is the key of some pair exactly when it is not one of the sixteen zero-padded keys |
| Carriers.ZeroPaddedKeysUnreachable | src/lib/carriers.ts:115-116 | no pair of integers renders to a zero-padded table key |
| Carriers.FallbackNameInjective | src/lib/carriers.ts:116 | a pair outside the table shares its name with no other pair |
| Carriers.ColorByRule | src/lib/carriers.ts:123-131 | a name containing rule k's marker, and lacking a character of each earlier marker, takes rule k's colour |
| Carriers.GrayByRules | src/lib/carriers.ts:131 | a name lacking a character of every marker includes none of them and is gray |
| Carriers.VerizonAndAttColors | src/lib/carriers.ts:123-124 | "Verizon Wireless" is red; "AT&T" and "AT&T FirstNet" are AT&T blue |
| Carriers.TMobileColors | src/lib/carriers.ts:125 | "T-Mobile" and "Sprint (T-Mobile)" are magenta |
| Carriers.UsCellularAndDishColors | src/lib/carriers.ts:127-128 | "US Cellular" is its blue and "Dish Network" is Dish red |
| Carriers.RegionalNamesGray | src/lib/carriers.ts:95-111 | every regional name includes no marker and is gray |
| Carriers.NationalNameMarkers | src/lib/carriers.ts:4-93 | among the national names only "Sprint (T-Mobile)" mentions Sprint and only "AT&T FirstNet" mentions FirstNet |
| Carriers.RegionalNameMarkers | src/lib/carriers.ts:95-111 | no regional name mentions Sprint or FirstNet |
| Carriers.TableNameMarkers | src/lib/carriers.ts:3-112 | among all table names only "Sprint (T-Mobile)" mentions Sprint and only "AT&T FirstNet" mentions FirstNet |
| Carriers.TableNameColors | src/lib/carriers.ts:123-131 | the colour of each of the 21 table names |
| Carriers.DeadBranches | src/lib/carriers.ts:126-129 | for every table name the first matching rule is neither the Sprint rule nor the FirstNet rule |
| Carriers.SprintNamesGetMagenta | src/lib/carriers.ts:125-126 | a table name mentioning Sprint is shown in T-Mobile magenta |
| Carriers.FirstNetNamesGetAttBlue | src/lib/carriers.ts:124-129 | a table name mentioning FirstNet is shown in AT&T blue |
| Carriers.NoSprintOrFirstNetColor | src/lib/carriers.ts:119-132 | no pair is ever shown in Sprint yellow or FirstNet navy |
| Carriers.ExampleKeys | src/lib/carriers.ts:115 | the example pairs render to "311-480", "313-100", "310-120", "310-450", "999-999" and "310-4" |
| Carriers.VerizonExample | src/lib/carriers.ts:5 | the pair keyed 311-480 is "Verizon Wireless" in Verizon red |
| Carriers.FirstNetExample | src/lib/carriers.ts:52 | the pair keyed 313-100 is "AT&T FirstNet" in AT&T blue |
| Carriers.SprintExample | src/lib/carriers.ts:74 | the pair keyed 310-120 is "Sprint (T-Mobile)" in T-Mobile magenta |
| Carriers.CommnetExample | src/lib/carriers.ts:97 | the pair keyed 310-450 is "Commnet" in gray |
| Carriers.UnknownPairExample | src/lib/carriers.ts:114-117 | the pair keyed 999-999 is named "999-999" and is gray |
| Carriers.ZeroPaddedExample | src/lib/carriers.ts:6 | 310-004 is in the table, yet the pair keyed "310-4" is named "310-4" and is gray |
| Carriers.NationalPairExamples | src/lib/carriers.ts:114-132 | (311, 480) is "Verizon Wireless" in Verizon red, (313, 100) is "AT&T FirstNet" in AT&T blue, (310, 120) is "Sprint (T-Mobile)" in T-Mobile magenta |
| Carriers.OtherPairExamples | src/lib/carriers.ts:114-132 | (310, 450) is "Commnet", (999, 999) is "999-999" and (310, 4) is "310-4", all three in gray |

## Left out

- Numbers that are not integers are left out. The codes are modelled as
  integers. Fractions, NaN, the infinities and the exponent notation used
  from 1e21 up are not modelled. Negative zero does not arise either, because
  Dafny's `int` has none.
- Decimal.NumberToString: the rendering is exact only for |x| <= 2^53. Above
  that a JavaScript number is a double: integers such as 2^53 + 1 do not exist
  as numbers, and `${2**60}` prints the shortest digits that round back to
  the double ("1152921504606847000"), while the model prints every digit of
  the integer. The codes the resolver receives are 32-bit GraphQL `Int`
  fields, well inside the exact range.
- Strings are sequences of Dafny characters, not UTF-16 code units. Every
  literal in the resolver is ASCII, so `includes` behaves the same on both.
- Lookups through the object's prototype chain are not modelled: the table is
  a map, not a JavaScript object. This loses nothing, because every
  rendered key contains '-' and no inherited property name does.
- The single-name blocks (Verizon, T-Mobile, Sprint, US Cellular, Dish) are
  written as their key set, with every key mapped to the block's one name.
  This gives the same entries as the source's literal. The AT&T and regional
  blocks stay map literals.
- `src/lib/graphql/queries.ts`, `src/lib/chartConfig.ts` and
  `src/lib/graphql/client.ts` are not part of this model. They are
  server-side query text, chart styling and network client setup.
