/** The carrier identity resolver: turns a mobile country code / mobile
    network code pair (the MCC/MNC of ITU-T Recommendation E.212) into a
    display name and a display colour, through the static US carrier table. */
module Carriers {
  import opened Decimal
  import opened Strings

  // ---------------------------------------------------------------------
  // The static table

  /** CARRIER_NAMES, src/lib/carriers.ts lines 5-39: Verizon; every key of
      the block maps to "Verizon Wireless". */
  const VerizonKeys: set<string> := {
    "311-480", "310-004", "310-010", "310-012", "310-013", "311-270",
    "311-271", "311-272", "311-273", "311-274", "311-275", "311-276",
    "311-277", "311-278", "311-279", "311-280", "311-281", "311-282",
    "311-283", "311-284", "311-285", "311-286", "311-287", "311-288",
    "311-289", "311-390", "311-481", "311-482", "311-483", "311-484",
    "311-485", "311-486", "311-487", "311-488", "311-489"
  }

  const VerizonEntries: map<string, string> :=
    map key | key in VerizonKeys :: "Verizon Wireless"

  /** CARRIER_NAMES, src/lib/carriers.ts lines 42-52: AT&T. */
  const AttEntries: map<string, string> := map[
    "310-410" := "AT&T",
    "310-070" := "AT&T",
    "310-150" := "AT&T",
    "310-170" := "AT&T",
    "310-380" := "AT&T",
    "310-560" := "AT&T",
    "310-680" := "AT&T",
    "310-980" := "AT&T",
    "311-180" := "AT&T",
    "312-670" := "AT&T",
    "313-100" := "AT&T FirstNet"
  ]

  /** CARRIER_NAMES, src/lib/carriers.ts lines 55-71: T-Mobile; every key of
      the block maps to "T-Mobile". */
  const TMobileKeys: set<string> := {
    "310-260", "310-200", "310-210", "310-220", "310-230", "310-240",
    "310-250", "310-270", "310-310", "310-490", "310-580", "310-660",
    "310-800", "311-490", "311-882", "311-660", "312-250"
  }

  const TMobileEntries: map<string, string> :=
    map key | key in TMobileKeys :: "T-Mobile"

  /** CARRIER_NAMES, src/lib/carriers.ts lines 74-77: Sprint (now T-Mobile);
      every key of the block maps to "Sprint (T-Mobile)". */
  const SprintKeys: set<string> := {
    "310-120", "311-870", "311-880", "312-530"
  }

  const SprintEntries: map<string, string> :=
    map key | key in SprintKeys :: "Sprint (T-Mobile)"

  /** CARRIER_NAMES, src/lib/carriers.ts lines 80-89: US Cellular; every key of
      the block maps to "US Cellular". */
  const UsCellularKeys: set<string> := {
    "311-220", "311-221", "311-222", "311-223", "311-224", "311-225",
    "311-226", "311-227", "311-228", "311-229"
  }

  const UsCellularEntries: map<string, string> :=
    map key | key in UsCellularKeys :: "US Cellular"

  /** CARRIER_NAMES, src/lib/carriers.ts lines 92-93: Dish Network; every key of
      the block maps to "Dish Network". */
  const DishKeys: set<string> := {
    "311-012", "312-680"
  }

  const DishEntries: map<string, string> :=
    map key | key in DishKeys :: "Dish Network"

  /** CARRIER_NAMES, src/lib/carriers.ts lines 96-111: Regional carriers. */
  const RegionalEntries: map<string, string> := map[
    "310-016" := "Cricket Wireless",
    "310-450" := "Commnet",
    "310-540" := "Commnet",
    "311-040" := "Commnet",
    "310-760" := "PTCI",
    "311-000" := "Mid-Tex Cellular",
    "311-050" := "Wikes Cellular",
    "311-060" := "Farmers Cellular",
    "311-070" := "Easterbrooke",
    "311-090" := "Stelera Wireless",
    "311-100" := "Nex-Tech",
    "311-190" := "Cellcom",
    "310-030" := "Indigo Wireless",
    "310-034" := "Airpeak",
    "310-090" := "Edge Wireless",
    "310-100" := "Plateau Wireless"
  ]

  /** CARRIER_NAMES: "MCC-MNC" to carrier name, entry for entry, as the union
      of the source's commented blocks. Map union keeps the right-hand entry,
      as a later duplicate key in an object literal would. */
  const CarrierNames: map<string, string> :=
    VerizonEntries + AttEntries + TMobileEntries + SprintEntries
    + UsCellularEntries + DishEntries + RegionalEntries

  /** The table keys whose network code is written with a leading zero. */
  const ZeroPaddedKeys: set<string> := {
    "310-004", "310-010", "310-012", "310-013", "310-070", "311-012",
    "310-016", "311-040", "311-000", "311-050", "311-060", "311-070",
    "311-090", "310-030", "310-034", "310-090"
  }

  /** The distinct names of the regional block. */
  predicate IsRegionalName(name: string) {
    name in {
      "Cricket Wireless", "Commnet", "PTCI", "Mid-Tex Cellular", "Wikes Cellular",
      "Farmers Cellular", "Easterbrooke", "Stelera Wireless", "Nex-Tech", "Cellcom",
      "Indigo Wireless", "Airpeak", "Edge Wireless", "Plateau Wireless"
    }
  }

  /** The distinct names of the national blocks. */
  predicate IsNationalName(name: string) {
    name in {
      "Verizon Wireless", "AT&T", "AT&T FirstNet", "T-Mobile", "Sprint (T-Mobile)",
      "US Cellular", "Dish Network"
    }
  }

  /** The distinct names of the whole table. */
  predicate IsTableName(name: string) {
    IsNationalName(name) || IsRegionalName(name)
  }

  // ---------------------------------------------------------------------
  // Colours

  const VerizonRed := "#cd040b"
  const AttBlue := "#00a8e0"
  const TMobileMagenta := "#e20074"
  const SprintYellow := "#ffe100"
  const UsCellularBlue := "#0057b8"
  const DishRed := "#ec1c24"
  const FirstNetNavy := "#003366"
  const NeutralGray := "#6b7280"

  const Palette: set<string> := {
    VerizonRed, AttBlue, TMobileMagenta, SprintYellow,
    UsCellularBlue, DishRed, FirstNetNavy, NeutralGray
  }

  /** The colour branches of getCarrierColor as (marker, colour) pairs, in
      the order they are tried. */
  const ColorRules: seq<(string, string)> := [
    ("Verizon", VerizonRed),
    ("AT&T", AttBlue),
    ("T-Mobile", TMobileMagenta),
    ("Sprint", SprintYellow),
    ("US Cellular", UsCellularBlue),
    ("Dish", DishRed),
    ("FirstNet", FirstNetNavy)
  ]

  /** Positions of the Sprint and FirstNet rules in ColorRules. */
  const SprintBranch := 3
  const FirstNetBranch := 6

  // ---------------------------------------------------------------------
  // The resolver

  /** The lookup key `${countryId}-${providerId}`. The separator is the
      first '-' after the first character, which is what lets a key be split
      back into its two codes (KeyInjective, ReachableIff). */
  function Key(countryId: int, providerId: int): (key: string)
    ensures var n := |NumberToString(countryId)|;
      0 < n < |key| && key[n] == '-' && forall i :: 1 <= i < n ==> IsDigit(key[i])
  {
    NumberToString(countryId) + "-" + NumberToString(providerId)
  }

  /** `CARRIER_NAMES[key] || fallback`: a missing key reads as undefined and
      an empty name as "", both falsy, and either gives the fallback. */
  function LookupOr(key: string, fallback: string): (r: string)
    ensures key in CarrierNames && CarrierNames[key] != "" ==> r == CarrierNames[key]
    ensures key !in CarrierNames || CarrierNames[key] == "" ==> r == fallback
  {
    var found := if key in CarrierNames then CarrierNames[key] else "";
    if found != "" then found else fallback
  }

  /** getCarrierName: the table's name for the pair, or the key itself. */
  function CarrierName(countryId: int, providerId: int): (name: string)
    ensures Key(countryId, providerId) in CarrierNames ==>
              name == CarrierNames[Key(countryId, providerId)]
    ensures Key(countryId, providerId) !in CarrierNames ==>
              name == Key(countryId, providerId)
  {
    var key := Key(countryId, providerId);
    NoEmptyNames(key);
    LookupOr(key, key)
  }

  /** The if-chain of getCarrierColor applied to a resolved name. */
  function ColorOfName(name: string): (color: string)
    ensures color in Palette
  {
    if Includes(name, "Verizon") then VerizonRed
    else if Includes(name, "AT&T") then AttBlue
    else if Includes(name, "T-Mobile") then TMobileMagenta
    else if Includes(name, "Sprint") then SprintYellow
    else if Includes(name, "US Cellular") then UsCellularBlue
    else if Includes(name, "Dish") then DishRed
    else if Includes(name, "FirstNet") then FirstNetNavy
    else NeutralGray
  }

  /** getCarrierColor: the colour of the table name, or of the empty name
      when the pair is not in the table. */
  function CarrierColor(countryId: int, providerId: int): (color: string)
    ensures color in Palette
    ensures Key(countryId, providerId) !in CarrierNames ==> color == NeutralGray
  {
    ColorOfName(LookupOr(Key(countryId, providerId), ""))
  }

  // ---------------------------------------------------------------------
  // First-match dispatch, the reference for the if-chain

  /** Index of the first rule whose marker the name includes, or |rules|
      when none does. */
  function FirstMatch(name: string, rules: seq<(string, string)>): (i: nat)
    ensures i <= |rules|
    ensures i < |rules| ==> Includes(name, rules[i].0)
    ensures forall j :: 0 <= j < i ==> !Includes(name, rules[j].0)
  {
    if rules == [] then 0
    else if Includes(name, rules[0].0) then 0
    else 1 + FirstMatch(name, rules[1..])
  }

  /** The colour of the first matching rule, or the default: either some
      rule matches, no earlier one does, and its colour is the result, or no
      rule matches and the result is the default. */
  function RuleColor(name: string, rules: seq<(string, string)>, default: string): (color: string)
    ensures (exists i :: 0 <= i < |rules| && Includes(name, rules[i].0) && color == rules[i].1 &&
               forall j :: 0 <= j < i ==> !Includes(name, rules[j].0))
         || (color == default && forall j :: 0 <= j < |rules| ==> !Includes(name, rules[j].0))
  {
    var i := FirstMatch(name, rules);
    if i < |rules| then rules[i].1 else default
  }

  // ---------------------------------------------------------------------
  // The table, block by block (one block per proof keeps each proof small)

  /** "MCC-MNC": a three-digit country code starting with 3, '-', and a
      three-digit network code. */
  ghost predicate WellFormedKey(key: string) {
    |key| == 7 && key[0] == '3' && IsDigit(key[1]) && IsDigit(key[2]) && key[3] == '-' &&
    IsDigit(key[4]) && IsDigit(key[5]) && IsDigit(key[6])
  }

  /** What every table entry satisfies; a network code written with a
      leading zero marks one of ZeroPaddedKeys. */
  ghost predicate WellFormedEntry(key: string, name: string) {
    WellFormedKey(key) && (key[4] == '0' ==> key in ZeroPaddedKeys) && IsTableName(name)
  }

  lemma VerizonBlock(key: string)
    requires key in VerizonEntries
    ensures WellFormedEntry(key, VerizonEntries[key])
    ensures VerizonEntries[key] == "Verizon Wireless"
  {
  }

  lemma AttBlock(key: string)
    requires key in AttEntries
    ensures WellFormedEntry(key, AttEntries[key])
    ensures AttEntries[key] in {"AT&T", "AT&T FirstNet"}
  {
  }

  lemma TMobileBlock(key: string)
    requires key in TMobileEntries
    ensures WellFormedEntry(key, TMobileEntries[key])
    ensures TMobileEntries[key] == "T-Mobile"
  {
  }

  lemma SprintBlock(key: string)
    requires key in SprintEntries
    ensures WellFormedEntry(key, SprintEntries[key])
    ensures SprintEntries[key] == "Sprint (T-Mobile)"
  {
  }

  lemma UsCellularBlock(key: string)
    requires key in UsCellularEntries
    ensures WellFormedEntry(key, UsCellularEntries[key])
    ensures UsCellularEntries[key] == "US Cellular"
  {
  }

  lemma DishBlock(key: string)
    requires key in DishEntries
    ensures WellFormedEntry(key, DishEntries[key])
    ensures DishEntries[key] == "Dish Network"
  {
  }

  lemma RegionalBlock(key: string)
    requires key in RegionalEntries
    ensures WellFormedEntry(key, RegionalEntries[key])
    ensures IsRegionalName(RegionalEntries[key])
  {
  }

  /** Every entry of CARRIER_NAMES is well formed. */
  lemma TableEntry(key: string)
    requires key in CarrierNames
    ensures WellFormedEntry(key, CarrierNames[key])
  {
    TableValue(key);
    if key in RegionalEntries {
      RegionalBlock(key);
    } else if key in DishEntries {
      DishBlock(key);
    } else if key in UsCellularEntries {
      UsCellularBlock(key);
    } else if key in SprintEntries {
      SprintBlock(key);
    } else if key in TMobileEntries {
      TMobileBlock(key);
    } else if key in AttEntries {
      AttBlock(key);
    } else {
      VerizonBlock(key);
    }
  }

  /** A key of any block is a table key. */
  lemma BlockKeyInTable(key: string)
    requires key in VerizonEntries || key in AttEntries || key in TMobileEntries
      || key in SprintEntries || key in UsCellularEntries || key in DishEntries
      || key in RegionalEntries
    ensures key in CarrierNames
  {
  }

  /** A table lookup reads the last block holding the key. */
  lemma TableValue(key: string)
    requires key in CarrierNames
    ensures CarrierNames[key] ==
      if key in RegionalEntries then RegionalEntries[key]
      else if key in DishEntries then DishEntries[key]
      else if key in UsCellularEntries then UsCellularEntries[key]
      else if key in SprintEntries then SprintEntries[key]
      else if key in TMobileEntries then TMobileEntries[key]
      else if key in AttEntries then AttEntries[key]
      else VerizonEntries[key]
  {
  }

  lemma ZeroPaddedNetworkCode(key: string)
    requires key in ZeroPaddedKeys
    ensures |key| == 7 && key[4] == '0'
  {
  }

  lemma ZeroPaddedVerizonKeys()
    ensures "310-004" in VerizonEntries && "310-010" in VerizonEntries
    ensures "310-012" in VerizonEntries && "310-013" in VerizonEntries
  {
  }

  lemma ZeroPaddedAttAndDishKeys()
    ensures "310-070" in AttEntries && "311-012" in DishEntries
  {
  }

  lemma ZeroPaddedRegionalKeys()
    ensures "310-016" in RegionalEntries && "311-040" in RegionalEntries
    ensures "311-000" in RegionalEntries && "311-050" in RegionalEntries
    ensures "311-060" in RegionalEntries && "311-070" in RegionalEntries
    ensures "311-090" in RegionalEntries && "310-030" in RegionalEntries
    ensures "310-034" in RegionalEntries && "310-090" in RegionalEntries
  {
  }

  /** Every zero-padded key is a table key. */
  lemma ZeroPaddedKeysInTable(key: string)
    ensures key in ZeroPaddedKeys ==> key in CarrierNames
  {
    if key in ZeroPaddedKeys {
      ZeroPaddedVerizonKeys();
      ZeroPaddedAttAndDishKeys();
      ZeroPaddedRegionalKeys();
      BlockKeyInTable(key);
    }
  }

  // ---------------------------------------------------------------------
  // Names

  /** Table names are non-empty and contain no decimal digit. */
  lemma TableNameText(name: string)
    requires IsTableName(name)
    ensures name != "" && forall i :: 0 <= i < |name| ==> !IsDigit(name[i])
  {
    if IsNationalName(name) {
      NationalNameText(name);
    } else {
      RegionalNameText(name);
    }
  }

  lemma NationalNameText(name: string)
    requires IsNationalName(name)
    ensures name != "" && forall i :: 0 <= i < |name| ==> !IsDigit(name[i])
  {
  }

  lemma RegionalNameText(name: string)
    requires IsRegionalName(name)
    ensures name != "" && forall i :: 0 <= i < |name| ==> !IsDigit(name[i])
  {
    if name in {
      "Cricket Wireless", "Commnet", "PTCI", "Mid-Tex Cellular", "Wikes Cellular",
      "Farmers Cellular", "Easterbrooke"}
    {
      NamesWithoutDigits(name);
    } else {
      MoreNamesWithoutDigits(name);
    }
  }

  lemma NamesWithoutDigits(name: string)
    requires name in {
      "Cricket Wireless", "Commnet", "PTCI", "Mid-Tex Cellular", "Wikes Cellular",
      "Farmers Cellular", "Easterbrooke"}
    ensures name != "" && forall i :: 0 <= i < |name| ==> !IsDigit(name[i])
  {
  }

  lemma MoreNamesWithoutDigits(name: string)
    requires name in {
      "Stelera Wireless", "Nex-Tech", "Cellcom", "Indigo Wireless", "Airpeak",
      "Edge Wireless", "Plateau Wireless"}
    ensures name != "" && forall i :: 0 <= i < |name| ==> !IsDigit(name[i])
  {
  }

  /** No table name is empty, so the `||` fallback never fires on a hit. */
  lemma NoEmptyNames(key: string)
    ensures key in CarrierNames ==> CarrierNames[key] != ""
  {
    if key in CarrierNames {
      TableEntry(key);
      TableNameText(CarrierNames[key]);
    }
  }
  /** getCarrierName never returns the empty string. */
  lemma CarrierNameNonEmpty(countryId: int, providerId: int)
    ensures CarrierName(countryId, providerId) != ""
  {
    var key := Key(countryId, providerId);
    if key in CarrierNames {
      NoEmptyNames(key);
    }
  }


  // ---------------------------------------------------------------------
  // Keys

  /** Some integer pair renders to this key. */
  ghost predicate Reachable(key: string) {
    exists countryId: int, providerId: int :: Key(countryId, providerId) == key
  }

  /** A rendered number ends at the first '-' after its first character, so
      it splits off the front of a key unambiguously. */
  lemma SplitRendered(x: int, u: string, v: string, w: string)
    requires NumberToString(x) + "-" + v == u + "-" + w
    requires |u| > 0 && forall i :: 1 <= i < |u| ==> IsDigit(u[i])
    ensures NumberToString(x) == u && v == w
  {
    var s := NumberToString(x);
    var key := s + "-" + v;
    assert key[|s|] == '-';
    assert key[|u|] == '-';
    assert s == key[..|s|] == u;
    assert v == key[|s| + 1..] == w;
  }

  /** Distinct code pairs never share a key. */
  lemma KeyInjective(c1: int, p1: int, c2: int, p2: int)
    requires Key(c1, p1) == Key(c2, p2)
    ensures c1 == c2 && p1 == p2
  {
    SplitRendered(c1, NumberToString(c2), NumberToString(p1), NumberToString(p2));
    NumberToStringInjective(c1, c2);
    NumberToStringInjective(p1, p2);
  }

  /** A key "a-b" of two digit strings is produced by some pair exactly when
      neither part has a leading zero. */
  lemma ReachableIff(a: string, b: string)
    requires |a| > 0 && IsDigits(a) && IsDigits(b)
    ensures Reachable(a + "-" + b) <==> IsCanonical(a) && IsCanonical(b)
  {
    if Reachable(a + "-" + b) {
      var c, p :| Key(c, p) == a + "-" + b;
      SplitRendered(c, a, NumberToString(p), b);
    }
    if IsCanonical(a) && IsCanonical(b) {
      CanonicalRoundTrip(a);
      CanonicalRoundTrip(b);
      assert Key(DigitsValue(a), DigitsValue(b)) == a + "-" + b;
    }
  }

  /** A key of the table's shape is reachable exactly when its network code
      has no leading zero. */
  lemma WellFormedKeyReachability(key: string)
    requires WellFormedKey(key)
    ensures Reachable(key) <==> key[4] != '0'
  {
    assert IsDigits(key[..3]) && IsDigits(key[4..]);
    assert key == key[..3] + "-" + key[4..];
    ReachableIff(key[..3], key[4..]);
  }

  /** The zero-padded keys are exactly the table entries that no pair of
      integers can look up; every other entry is reached by its own codes. */
  lemma TableReachability(key: string)
    requires key in CarrierNames
    ensures Reachable(key) <==> key !in ZeroPaddedKeys
  {
    TableEntry(key);
    if key in ZeroPaddedKeys {
      ZeroPaddedNetworkCode(key);
    }
    WellFormedKeyReachability(key);
  }

  /** No pair of integers ever produces a zero-padded table key. */
  lemma ZeroPaddedKeysUnreachable(countryId: int, providerId: int)
    ensures Key(countryId, providerId) !in ZeroPaddedKeys
  {
    var key := Key(countryId, providerId);
    assert Reachable(key);
    ZeroPaddedKeysInTable(key);
    if key in CarrierNames {
      TableReachability(key);
    }
  }

  /** A fallback name cannot be mistaken for any other pair's name: not for
      a table name (those have no digits), nor for another fallback. */
  lemma FallbackNameInjective(c1: int, p1: int, c2: int, p2: int)
    requires Key(c1, p1) !in CarrierNames
    requires CarrierName(c1, p1) == CarrierName(c2, p2)
    ensures c1 == c2 && p1 == p2
  {
    var k1 := Key(c1, p1);
    assert IsDigit(k1[0]) || IsDigit(k1[1]);
    if Key(c2, p2) in CarrierNames {
      TableEntry(Key(c2, p2));
      TableNameText(CarrierNames[Key(c2, p2)]);
    }
    KeyInjective(c1, p1, c2, p2);
  }

  // ---------------------------------------------------------------------
  // Colours

  /** The if-chain is the first-match dispatch over ColorRules with gray as
      the default: each marker is tried in order and the first hit wins. */
  lemma ColorChainIsFirstMatch(name: string)
    ensures ColorOfName(name) == RuleColor(name, ColorRules, NeutralGray)
  {
    var i := FirstMatch(name, ColorRules);
    assert ColorRules[0].0 == "Verizon" && ColorRules[1].0 == "AT&T";
    assert ColorRules[2].0 == "T-Mobile" && ColorRules[3].0 == "Sprint";
    assert ColorRules[4].0 == "US Cellular" && ColorRules[5].0 == "Dish";
    assert ColorRules[6].0 == "FirstNet";
    assert i > 0 ==> !Includes(name, ColorRules[0].0);
    assert i > 1 ==> !Includes(name, ColorRules[1].0);
    assert i > 2 ==> !Includes(name, ColorRules[2].0);
    assert i > 3 ==> !Includes(name, ColorRules[3].0);
    assert i > 4 ==> !Includes(name, ColorRules[4].0);
    assert i > 5 ==> !Includes(name, ColorRules[5].0);
    assert i > 6 ==> !Includes(name, ColorRules[6].0);
  }

  /** A name in which rule k's marker occurs, and which lacks one character
      of each earlier rule's marker, takes rule k's colour. */
  lemma ColorByRule(name: string, k: nat, misses: seq<nat>, at: nat)
    requires k < |ColorRules| && |misses| == k
    requires forall j :: 0 <= j < k ==>
      misses[j] < |ColorRules[j].0| && ColorRules[j].0[misses[j]] !in name
    requires OccursAt(name, ColorRules[k].0, at)
    ensures ColorOfName(name) == ColorRules[k].1
  {
    forall j | 0 <= j < k
      ensures !Includes(name, ColorRules[j].0)
    {
      MissingCharExcludes(name, ColorRules[j].0, misses[j]);
    }
    OccurrenceIncluded(name, ColorRules[k].0, at);
    ColorChainIsFirstMatch(name);
  }

  /** A name that lacks one character of every marker contains no marker
      and is gray. */
  lemma GrayByRules(name: string, misses: seq<nat>)
    requires |misses| == |ColorRules|
    requires forall j :: 0 <= j < |ColorRules| ==>
      misses[j] < |ColorRules[j].0| && ColorRules[j].0[misses[j]] !in name
    ensures forall j :: 0 <= j < |ColorRules| ==> !Includes(name, ColorRules[j].0)
    ensures ColorOfName(name) == NeutralGray
  {
    forall j | 0 <= j < |ColorRules|
      ensures !Includes(name, ColorRules[j].0)
    {
      MissingCharExcludes(name, ColorRules[j].0, misses[j]);
    }
    ColorChainIsFirstMatch(name);
  }

  /** Verizon's name is red; both AT&T names are blue, because "AT&T" is
      tested before "FirstNet". */
  lemma VerizonAndAttColors(name: string)
    requires name in {"Verizon Wireless", "AT&T", "AT&T FirstNet"}
    ensures ColorOfName(name) == if name == "Verizon Wireless" then VerizonRed else AttBlue
  {
    if name == "Verizon Wireless" {
      ColorByRule(name, 0, [], 0);
    } else {
      ColorByRule(name, 1, [0], 0);
    }
  }

  /** Both T-Mobile names are magenta, because "T-Mobile" is tested before
      "Sprint". */
  lemma TMobileColors(name: string)
    requires name in {"T-Mobile", "Sprint (T-Mobile)"}
    ensures ColorOfName(name) == TMobileMagenta
  {
    if name == "T-Mobile" {
      ColorByRule(name, 2, [0, 0], 0);
    } else {
      assert ColorRules[2].0 == "T-Mobile";
      assert name[8..16] == "T-Mobile";
      ColorByRule(name, 2, [0, 0], 8);
    }
  }

  lemma UsCellularAndDishColors(name: string)
    requires name in {"US Cellular", "Dish Network"}
    ensures ColorOfName(name) == if name == "US Cellular" then UsCellularBlue else DishRed
  {
    if name == "US Cellular" {
      ColorByRule(name, 4, [0, 0, 0, 1], 0);
    } else {
      ColorByRule(name, 5, [0, 0, 0, 0, 0], 0);
    }
  }

  /** Regional names whose first letters already rule out every marker. */
  lemma PlainRegionalNames(name: string)
    requires name in {
      "Cricket Wireless", "Commnet", "Wikes Cellular", "Easterbrooke", "Cellcom",
      "Indigo Wireless", "Edge Wireless", "Plateau Wireless"}
    ensures forall j :: 0 <= j < |ColorRules| ==> !Includes(name, ColorRules[j].0)
    ensures ColorOfName(name) == NeutralGray
  {
    GrayByRules(name, [0, 0, 0, 0, 0, 0, 0]);
  }

  /** Regional names that share a marker's first letter but not a later one. */
  lemma NearMissRegionalNames(name: string)
    requires name in {"PTCI", "Mid-Tex Cellular", "Nex-Tech"}
    ensures forall j :: 0 <= j < |ColorRules| ==> !Includes(name, ColorRules[j].0)
    ensures ColorOfName(name) == NeutralGray
  {
    if name == "PTCI" {
      GrayByRules(name, [0, 0, 1, 0, 0, 0, 0]);
    } else if name == "Mid-Tex Cellular" {
      GrayByRules(name, [0, 0, 3, 0, 0, 0, 0]);
    } else {
      GrayByRules(name, [0, 0, 2, 0, 0, 0, 0]);
    }
  }

  /** More regional names that share a marker's first letter only. */
  lemma OtherNearMissRegionalNames(name: string)
    requires name in {"Stelera Wireless", "Farmers Cellular", "Airpeak"}
    ensures forall j :: 0 <= j < |ColorRules| ==> !Includes(name, ColorRules[j].0)
    ensures ColorOfName(name) == NeutralGray
  {
    if name == "Stelera Wireless" {
      GrayByRules(name, [0, 0, 0, 1, 0, 0, 0]);
    } else if name == "Farmers Cellular" {
      GrayByRules(name, [0, 0, 0, 0, 0, 0, 1]);
    } else {
      GrayByRules(name, [0, 1, 0, 0, 0, 0, 0]);
    }
  }

  /** Regional names contain no marker at all, so they are all gray. */
  lemma RegionalNamesGray(name: string)
    requires IsRegionalName(name)
    ensures forall j :: 0 <= j < |ColorRules| ==> !Includes(name, ColorRules[j].0)
    ensures ColorOfName(name) == NeutralGray
  {
    if name in {"PTCI", "Mid-Tex Cellular", "Nex-Tech"} {
      NearMissRegionalNames(name);
    } else if name in {"Stelera Wireless", "Farmers Cellular", "Airpeak"} {
      OtherNearMissRegionalNames(name);
    } else {
      PlainRegionalNames(name);
    }
  }

  /** The national names other than "Sprint (T-Mobile)" do not mention
      Sprint. */
  lemma NoSprintMention(name: string)
    requires name in {
      "Verizon Wireless", "AT&T", "AT&T FirstNet", "T-Mobile", "US Cellular", "Dish Network"}
    ensures !Includes(name, "Sprint")
  {
    if name == "US Cellular" {
      MissingCharExcludes(name, "Sprint", 1);
    } else {
      MissingCharExcludes(name, "Sprint", 0);
    }
  }

  /** The national names other than "AT&T FirstNet" do not mention FirstNet. */
  lemma NoFirstNetMention(name: string)
    requires name in {
      "Verizon Wireless", "AT&T", "T-Mobile", "Sprint (T-Mobile)", "US Cellular", "Dish Network"}
    ensures !Includes(name, "FirstNet")
  {
    MissingCharExcludes(name, "FirstNet", 0);
  }

  /** A name that contains no marker mentions neither Sprint nor FirstNet. */
  lemma NoMarkerNoMention(name: string)
    requires forall j :: 0 <= j < |ColorRules| ==> !Includes(name, ColorRules[j].0)
    ensures !Includes(name, "Sprint") && !Includes(name, "FirstNet")
  {
    assert ColorRules[SprintBranch].0 == "Sprint";
    assert ColorRules[FirstNetBranch].0 == "FirstNet";
  }

  /** No regional name mentions Sprint or FirstNet. */
  lemma RegionalNameMarkers(name: string)
    requires IsRegionalName(name)
    ensures !Includes(name, "Sprint") && !Includes(name, "FirstNet")
  {
    RegionalNamesGray(name);
    NoMarkerNoMention(name);
  }

  /** Among the national names only "Sprint (T-Mobile)" mentions Sprint and
      only "AT&T FirstNet" mentions FirstNet. */
  lemma NationalNameMarkers(name: string)
    requires IsNationalName(name)
    ensures Includes(name, "Sprint") ==> name == "Sprint (T-Mobile)"
    ensures Includes(name, "FirstNet") ==> name == "AT&T FirstNet"
  {
    if name != "Sprint (T-Mobile)" {
      NoSprintMention(name);
    }
    if name != "AT&T FirstNet" {
      NoFirstNetMention(name);
    }
  }

  /** Only "Sprint (T-Mobile)" mentions Sprint and only "AT&T FirstNet"
      mentions FirstNet among the table's names. */
  lemma TableNameMarkers(name: string)
    requires IsTableName(name)
    ensures Includes(name, "Sprint") ==> name == "Sprint (T-Mobile)"
    ensures Includes(name, "FirstNet") ==> name == "AT&T FirstNet"
  {
    if IsNationalName(name) {
      NationalNameMarkers(name);
    } else {
      RegionalNameMarkers(name);
    }
  }

  /** The colour of every table name. */
  lemma TableNameColors(name: string)
    requires IsTableName(name)
    ensures ColorOfName(name) ==
      if name == "Verizon Wireless" then VerizonRed
      else if name == "AT&T" || name == "AT&T FirstNet" then AttBlue
      else if name == "T-Mobile" || name == "Sprint (T-Mobile)" then TMobileMagenta
      else if name == "US Cellular" then UsCellularBlue
      else if name == "Dish Network" then DishRed
      else NeutralGray
  {
    if name in {"Verizon Wireless", "AT&T", "AT&T FirstNet"} {
      VerizonAndAttColors(name);
    } else if name in {"T-Mobile", "Sprint (T-Mobile)"} {
      TMobileColors(name);
    } else if name in {"US Cellular", "Dish Network"} {
      UsCellularAndDishColors(name);
    } else {
      RegionalNamesGray(name);
    }
  }

  /** For every table name the first matching rule is neither Sprint's nor
      FirstNet's: both branches are dead code for the table. */
  lemma DeadBranches(name: string)
    requires IsTableName(name)
    ensures FirstMatch(name, ColorRules) != SprintBranch
    ensures FirstMatch(name, ColorRules) != FirstNetBranch
  {
    TableNameColors(name);
    ColorChainIsFirstMatch(name);
  }

  /** The colour is a function of the resolved name: the chain applied to
      the table name, or gray for a pair outside the table. */
  lemma ColorFollowsName(countryId: int, providerId: int)
    ensures CarrierColor(countryId, providerId) ==
      if Key(countryId, providerId) in CarrierNames
      then ColorOfName(CarrierName(countryId, providerId))
      else NeutralGray
  {
    NoEmptyNames(Key(countryId, providerId));
  }

  /** Pairs resolved to the same name get the same colour: on the table by
      ColorFollowsName, and off it because a fallback name is no other pair's
      name. */
  lemma SameNameSameColor(c1: int, p1: int, c2: int, p2: int)
    requires CarrierName(c1, p1) == CarrierName(c2, p2)
    ensures CarrierColor(c1, p1) == CarrierColor(c2, p2)
  {
    if Key(c1, p1) !in CarrierNames {
      FallbackNameInjective(c1, p1, c2, p2);
    } else if Key(c2, p2) !in CarrierNames {
      FallbackNameInjective(c2, p2, c1, p1);
    } else {
      ColorFollowsName(c1, p1);
      ColorFollowsName(c2, p2);
    }
  }

  /** A table name that mentions Sprint is coloured T-Mobile magenta. */
  lemma SprintNamesGetMagenta(countryId: int, providerId: int)
    requires Key(countryId, providerId) in CarrierNames
    requires Includes(CarrierName(countryId, providerId), "Sprint")
    ensures CarrierColor(countryId, providerId) == TMobileMagenta
  {
    TableEntry(Key(countryId, providerId));
    TableNameMarkers(CarrierName(countryId, providerId));
    TableNameColors(CarrierName(countryId, providerId));
    ColorFollowsName(countryId, providerId);
  }

  /** A table name that mentions FirstNet is coloured AT&T blue. */
  lemma FirstNetNamesGetAttBlue(countryId: int, providerId: int)
    requires Key(countryId, providerId) in CarrierNames
    requires Includes(CarrierName(countryId, providerId), "FirstNet")
    ensures CarrierColor(countryId, providerId) == AttBlue
  {
    TableEntry(Key(countryId, providerId));
    TableNameMarkers(CarrierName(countryId, providerId));
    TableNameColors(CarrierName(countryId, providerId));
    ColorFollowsName(countryId, providerId);
  }

  /** No pair of codes is ever shown in Sprint yellow or FirstNet navy. */
  lemma NoSprintOrFirstNetColor(countryId: int, providerId: int)
    ensures CarrierColor(countryId, providerId) != SprintYellow
    ensures CarrierColor(countryId, providerId) != FirstNetNavy
  {
    ColorFollowsName(countryId, providerId);
    if Key(countryId, providerId) in CarrierNames {
      TableEntry(Key(countryId, providerId));
      TableNameColors(CarrierName(countryId, providerId));
    }
  }

  // ---------------------------------------------------------------------
  // Worked examples

  lemma VerizonExampleEntry()
    ensures "311-480" in VerizonEntries && "311-480" !in AttEntries
    ensures "311-480" !in TMobileEntries && "311-480" !in SprintEntries
    ensures "311-480" !in UsCellularEntries && "311-480" !in DishEntries
    ensures "311-480" !in RegionalEntries
  {
  }

  /** The pairs of the examples below and the keys they are looked up
      under. */
  lemma ExampleKeys()
    ensures Key(311, 480) == "311-480" && Key(313, 100) == "313-100"
    ensures Key(310, 120) == "310-120" && Key(310, 450) == "310-450"
    ensures Key(999, 999) == "999-999" && Key(310, 4) == "310-4"
  {
    NationalExampleKeys();
    OtherExampleKeys();
  }

  lemma NationalExampleKeys()
    ensures Key(311, 480) == "311-480" && Key(313, 100) == "313-100"
    ensures Key(310, 120) == "310-120"
  {
  }

  lemma OtherExampleKeys()
    ensures Key(310, 450) == "310-450" && Key(999, 999) == "999-999"
    ensures Key(310, 4) == "310-4"
  {
  }

  /** 311-480 is Verizon Wireless, shown in Verizon red. */
  lemma VerizonExample(countryId: int, providerId: int)
    requires Key(countryId, providerId) == "311-480"
    ensures CarrierName(countryId, providerId) == "Verizon Wireless"
    ensures CarrierColor(countryId, providerId) == VerizonRed
  {
    VerizonExampleEntry();
    BlockKeyInTable("311-480");
    TableValue("311-480");
    ColorFollowsName(countryId, providerId);
    VerizonAndAttColors("Verizon Wireless");
  }

  lemma FirstNetExampleEntry()
    ensures "313-100" in AttEntries && AttEntries["313-100"] == "AT&T FirstNet"
    ensures "313-100" !in TMobileEntries && "313-100" !in SprintEntries
    ensures "313-100" !in UsCellularEntries && "313-100" !in DishEntries
    ensures "313-100" !in RegionalEntries
  {
  }

  /** 313-100 is AT&T FirstNet, shown in AT&T blue rather than FirstNet navy. */
  lemma FirstNetExample(countryId: int, providerId: int)
    requires Key(countryId, providerId) == "313-100"
    ensures CarrierName(countryId, providerId) == "AT&T FirstNet"
    ensures CarrierColor(countryId, providerId) == AttBlue
  {
    FirstNetExampleEntry();
    BlockKeyInTable("313-100");
    TableValue("313-100");
    ColorFollowsName(countryId, providerId);
    VerizonAndAttColors("AT&T FirstNet");
  }

  lemma SprintExampleEntry()
    ensures "310-120" in SprintEntries
    ensures "310-120" !in UsCellularEntries && "310-120" !in DishEntries
    ensures "310-120" !in RegionalEntries
  {
  }

  /** 310-120 is Sprint, shown in T-Mobile magenta rather than Sprint yellow. */
  lemma SprintExample(countryId: int, providerId: int)
    requires Key(countryId, providerId) == "310-120"
    ensures CarrierName(countryId, providerId) == "Sprint (T-Mobile)"
    ensures CarrierColor(countryId, providerId) == TMobileMagenta
  {
    SprintExampleEntry();
    BlockKeyInTable("310-120");
    TableValue("310-120");
    ColorFollowsName(countryId, providerId);
    TMobileColors("Sprint (T-Mobile)");
  }

  lemma CommnetExampleEntry()
    ensures "310-450" in RegionalEntries && RegionalEntries["310-450"] == "Commnet"
  {
  }

  /** 310-450 is the regional carrier Commnet, shown in neutral gray. */
  lemma CommnetExample(countryId: int, providerId: int)
    requires Key(countryId, providerId) == "310-450"
    ensures CarrierName(countryId, providerId) == "Commnet"
    ensures CarrierColor(countryId, providerId) == NeutralGray
  {
    CommnetExampleEntry();
    BlockKeyInTable("310-450");
    TableValue("310-450");
    ColorFollowsName(countryId, providerId);
    PlainRegionalNames("Commnet");
  }

  /** A pair outside the table names itself and is gray. */
  lemma UnknownPairExample(countryId: int, providerId: int)
    requires Key(countryId, providerId) == "999-999"
    ensures CarrierName(countryId, providerId) == "999-999"
    ensures CarrierColor(countryId, providerId) == NeutralGray
  {
    if "999-999" in CarrierNames {
      TableEntry("999-999");
    }
    ColorFollowsName(countryId, providerId);
  }

  /** The table holds 310-004, but the pair (310, 4) is looked up under
      "310-4" and misses it: the name is the key itself and the colour gray. */
  lemma ZeroPaddedExample(countryId: int, providerId: int)
    requires Key(countryId, providerId) == "310-4"
    ensures "310-004" in CarrierNames
    ensures CarrierName(countryId, providerId) == "310-4"
    ensures CarrierColor(countryId, providerId) == NeutralGray
  {
    ZeroPaddedVerizonKeys();
    BlockKeyInTable("310-004");
    if "310-4" in CarrierNames {
      TableEntry("310-4");
    }
    ColorFollowsName(countryId, providerId);
  }

  /** The national examples, for the literal code pairs. */
  lemma NationalPairExamples()
    ensures CarrierName(311, 480) == "Verizon Wireless" && CarrierColor(311, 480) == VerizonRed
    ensures CarrierName(313, 100) == "AT&T FirstNet" && CarrierColor(313, 100) == AttBlue
    ensures CarrierName(310, 120) == "Sprint (T-Mobile)"
    ensures CarrierColor(310, 120) == TMobileMagenta
  {
    NationalExampleKeys();
    VerizonExample(311, 480);
    FirstNetExample(313, 100);
    SprintExample(310, 120);
  }

  /** The regional, unknown and zero-padded examples, for the literal code
      pairs. */
  lemma OtherPairExamples()
    ensures CarrierName(310, 450) == "Commnet" && CarrierColor(310, 450) == NeutralGray
    ensures CarrierName(999, 999) == "999-999" && CarrierColor(999, 999) == NeutralGray
    ensures CarrierName(310, 4) == "310-4" && CarrierColor(310, 4) == NeutralGray
  {
    OtherExampleKeys();
    CommnetExample(310, 450);
    UnknownPairExample(999, 999);
    ZeroPaddedExample(310, 4);
  }
}
