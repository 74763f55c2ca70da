/** The topic-id to group mapping: an ordered table of id lists and labels, applied the way
    `np.select` applies a list of conditions (first true condition wins, else a default). */
module Groups {
  import opened Results

  /** The label given to a topic id that no condition matches. */
  const NoGroup := "None"

  /** The label of the group the SDA/ADA reclassification is applied to. */
  const SbtiGroup := "SBTI (+IPCC) and SDA/ADA"

  /** The id lists tested with `isin`, in table order. */
  const Conditions: seq<seq<int>> := [
    [0, 32, 41, 72, 66, 47],
    [1, 18, 52, 24, 58, 61, 68, 25],
    [2, 10, 19, 69],
    [3, 8],
    [5, 17, 26, 73, 43],
    [6, 39, 53],
    [7, 48, 49, 51, 74],
    [11, 67],
    [12, 22, 56, 54],
    [13],
    [14],
    [15, 70],
    [16],
    [23, 55],
    [28, 20, 21, 30],
    [29],
    [34],
    [36],
    [38, 62, 31, 33],
    [40],
    [44],
    [46],
    [50],
    [57],
    [27, 37, 35, 4, 9, 42, 45, 59, 60, 63, 64, 65, 71]
  ]

  /** The label of each condition, position by position. */
  const Choices: seq<string> := [
    "SBTI (+IPCC) and SDA/ADA",
    "Goals for fiscal years for domestic and overseas locations (Asia)",
    "General Scope-3: Goods/Services, Supply-Chain, Commuting",
    "Net-Zero carbon emissions by 2030-2060",
    "Electricity Efficient Lighting, Air-Conditioning and Refrigerants in Work Plants",
    "Reduce Fuel Consumption (Modern Engines/Electric Vehicles)",
    "General (Unclear)",
    "Replace Coal Plants with Natural Gas, Solar and Wind Powered Systems",
    "CO2 Emission Metrics (Tons/Year)",
    "Discussion of Factories and Plants in Asia",
    "Reduce Scope1+2 Emissions in Office Spaces",
    "Purchase Electricy with Guarantees of Origin and Renewable Certificates",
    "Reduce Stationary Combustion Emissions",
    "Recycling",
    "Renewable Energy (Switch/Invest) in Solar and Wind",
    "INDC",
    "Energy Efficiency in Sold Products",
    "3% Solution, WWF and CDP",
    "General Yearly Goals",
    "Market-Based",
    "Reduce Fugitive Methane from Natural Gas Processes",
    "Gold Standard Certificates and Carbon Credits",
    "Waste/kg Calculations",
    "Reduce Flaring Emissions to Zero by 2025-2030",
    "Others"
  ]

  /** The smallest index at or after `from` whose condition holds, or `|conds|` if none does. */
  function FirstTrue(conds: seq<bool>, from: nat): (k: nat)
    requires from <= |conds|
    ensures from <= k <= |conds|
    ensures k < |conds| ==> conds[k]
    ensures forall j :: from <= j < k ==> !conds[j]
    decreases |conds| - from
  {
    if from == |conds| then from
    else if conds[from] then from
    else FirstTrue(conds, from + 1)
  }

  /** numpy's `select` for one row: the choice of the first true condition, else the default.
      numpy refuses lists of different lengths and an empty list of conditions. */
  function Select(conds: seq<bool>, choices: seq<string>, default: string): (r: Result<string>)
    ensures r.Err? <==> |conds| != |choices| || |conds| == 0
    ensures r.Ok? && (forall i :: 0 <= i < |conds| ==> !conds[i]) ==> r.value == default
    ensures r.Ok? && (exists i :: 0 <= i < |conds| && conds[i]) ==>
              exists i :: 0 <= i < |conds| && conds[i] && r.value == choices[i] &&
                          forall j :: 0 <= j < i ==> !conds[j]
  {
    if |conds| != |choices| then Err(SelectLengthMismatch(|conds|, |choices|))
    else if |conds| == 0 then Err(SelectEmpty)
    else
      var k := FirstTrue(conds, 0);
      if k < |conds| then Ok(choices[k]) else Ok(default)
  }

  /** For one row, whether its topic id is in each of the id lists. */
  function IsIn(conditions: seq<seq<int>>, t: int): (m: seq<bool>)
    ensures |m| == |conditions|
    ensures forall i :: 0 <= i < |m| ==> (m[i] <==> t in conditions[i])
  {
    seq(|conditions|, i requires 0 <= i < |conditions| => t in conditions[i])
  }

  /** The group column for one row, for a table of id lists and labels (`ClassifyFirst` states
      which label). */
  function Classify(conditions: seq<seq<int>>, choices: seq<string>, t: int): (r: Result<string>)
    ensures r.Err? <==> |conditions| != |choices| || |conditions| == 0
  {
    Select(IsIn(conditions, t), choices, NoGroup)
  }

  /** The group assigned to topic id `t` by the repository's table (`GroupOfFirstMatch` states
      which one). */
  function GroupOf(t: int): (g: string)
    ensures Classify(Conditions, Choices, t) == Ok(g)
  {
    var r := Classify(Conditions, Choices, t);
    assert r.Ok?;
    r.value
  }

  /** A topic id's group is the label of the first list containing it, or `NoGroup` if no list
      does. */
  lemma GroupOfFirstMatch(t: int)
    ensures (exists i :: 0 <= i < |Conditions| && t in Conditions[i] && GroupOf(t) == Choices[i] &&
                         forall j :: 0 <= j < i ==> t !in Conditions[j]) ||
            ((forall i :: 0 <= i < |Conditions| ==> t !in Conditions[i]) && GroupOf(t) == NoGroup)
  {
    var m := IsIn(Conditions, t);
    var r := Select(m, Choices, NoGroup);
    if exists i :: 0 <= i < |m| && m[i] {
      var i :| 0 <= i < |m| && m[i] && r.value == Choices[i] && forall j :: 0 <= j < i ==> !m[j];
      assert t in Conditions[i];
    }
  }

  /** Both lists of the table have one entry per group: 25 conditions, 25 labels. */
  lemma TableShape()
    ensures |Conditions| == |Choices| == 25
    ensures forall t :: Classify(Conditions, Choices, t).Ok?
  {
  }

  /** The index of the one list that contains `t`; a certificate for the table facts below. */
  function OwnerOf(t: int): int
  {
    match t
    case 0 => 0
    case 1 => 1
    case 2 => 2
    case 3 => 3
    case 4 => 24
    case 5 => 4
    case 6 => 5
    case 7 => 6
    case 8 => 3
    case 9 => 24
    case 10 => 2
    case 11 => 7
    case 12 => 8
    case 13 => 9
    case 14 => 10
    case 15 => 11
    case 16 => 12
    case 17 => 4
    case 18 => 1
    case 19 => 2
    case 20 => 14
    case 21 => 14
    case 22 => 8
    case 23 => 13
    case 24 => 1
    case 25 => 1
    case 26 => 4
    case 27 => 24
    case 28 => 14
    case 29 => 15
    case 30 => 14
    case 31 => 18
    case 32 => 0
    case 33 => 18
    case 34 => 16
    case 35 => 24
    case 36 => 17
    case 37 => 24
    case 38 => 18
    case 39 => 5
    case 40 => 19
    case 41 => 0
    case 42 => 24
    case 43 => 4
    case 44 => 20
    case 45 => 24
    case 46 => 21
    case 47 => 0
    case 48 => 6
    case 49 => 6
    case 50 => 22
    case 51 => 6
    case 52 => 1
    case 53 => 5
    case 54 => 8
    case 55 => 13
    case 56 => 8
    case 57 => 23
    case 58 => 1
    case 59 => 24
    case 60 => 24
    case 61 => 1
    case 62 => 18
    case 63 => 24
    case 64 => 24
    case 65 => 24
    case 66 => 0
    case 67 => 7
    case 68 => 1
    case 69 => 2
    case 70 => 11
    case 71 => 24
    case 72 => 0
    case 73 => 4
    case 74 => 6
    case _ => -1
  }

  /** Every listed id is owned by the list it appears in. */
  lemma OwnerSound()
    ensures forall i, t :: 0 <= i < |Conditions| && t in Conditions[i] ==> OwnerOf(t) == i
  {
    forall i, t | 0 <= i < |Conditions| && t in Conditions[i]
      ensures OwnerOf(t) == i
    {
      assert 0 <= t <= 74;
    }
  }

  /** Every id in 0..74 appears in the list that owns it. */
  lemma OwnerComplete()
    ensures forall t :: 0 <= t <= 74 ==> 0 <= OwnerOf(t) < |Conditions| && t in Conditions[OwnerOf(t)]
  {
  }

  /** No topic id appears in two different lists of `conds`. */
  predicate PairwiseDisjoint(conds: seq<seq<int>>) {
    forall i, j, t :: 0 <= i < |conds| && 0 <= j < |conds| && t in conds[i] && t in conds[j] ==> i == j
  }

  /** A function naming, for each listed id, the list it appears in shows the lists disjoint. */
  lemma OwnerDisjoint(conds: seq<seq<int>>, owner: int -> int)
    requires forall i, t :: 0 <= i < |conds| && t in conds[i] ==> owner(t) == i
    ensures PairwiseDisjoint(conds)
  {
    forall i, j, t | 0 <= i < |conds| && 0 <= j < |conds| && t in conds[i] && t in conds[j]
      ensures i == j
    {
      assert owner(t) == i && owner(t) == j;
    }
  }

  /** No topic id appears in two lists of the table. */
  lemma Disjoint()
    ensures PairwiseDisjoint(Conditions)
  {
    OwnerSound();
    OwnerDisjoint(Conditions, OwnerOf);
  }

  /** The lists together hold exactly the ids 0..74. */
  lemma Coverage(t: int)
    ensures (exists i :: 0 <= i < |Conditions| && t in Conditions[i]) <==> 0 <= t <= 74
  {
    OwnerSound();
    OwnerComplete();
    if 0 <= t <= 74 {
      assert t in Conditions[OwnerOf(t)];
    }
  }

  /** An id in 0..74 gets the label of the list that owns it; any other id gets `NoGroup`,
      which is not a label of the table. */
  lemma GroupOfRange(t: int)
    ensures 0 <= t <= 74 ==> 0 <= OwnerOf(t) < |Choices| && GroupOf(t) == Choices[OwnerOf(t)]
    ensures GroupOf(t) != NoGroup <==> 0 <= t <= 74
    ensures GroupOf(t) != NoGroup <==> GroupOf(t) in Choices
  {
    NoGroupNotAChoice();
    if 0 <= t <= 74 {
      OwnerComplete();
      var k := OwnerOf(t);
      GroupOfListed(t, k);
      assert Choices[k] in Choices;
    } else {
      Coverage(t);
      GroupOfFirstMatch(t);
    }
  }

  /** "None" is not one of the 25 labels, so it always means "no list matched". */
  lemma NoGroupNotAChoice()
    ensures NoGroup !in Choices
  {
    assert forall k :: 0 <= k < |Choices| ==> Choices[k][0] != 'N' || |Choices[k]| != 4;
  }

  /** A listed id gets the label of its list. */
  lemma GroupOfListed(t: int, i: int)
    requires 0 <= i < |Conditions| && t in Conditions[i]
    ensures GroupOf(t) == Choices[i]
  {
    Disjoint();
    ClassifyDisjoint(Conditions, Choices, t, i);
  }

  /** `IsPerm(perm, n)`: `perm` lists each of the indices 0..n-1, in some order. */
  predicate IsPerm(perm: seq<int>, n: nat) {
    |perm| == n && (forall k :: 0 <= k < n ==> 0 <= perm[k] < n) && (forall i :: 0 <= i < n ==> i in perm)
  }

  /** The entries of `s` in the order given by `perm`. */
  function Reorder<T>(s: seq<T>, perm: seq<int>): (r: seq<T>)
    requires forall k :: 0 <= k < |perm| ==> 0 <= perm[k] < |s|
    ensures |r| == |perm|
    ensures forall k :: 0 <= k < |perm| ==> r[k] == s[perm[k]]
  {
    seq(|perm|, k requires 0 <= k < |perm| => s[perm[k]])
  }

  /** `Classify` unfolded into the index of the first true flag; a helper for the lemmas below. */
  lemma ClassifyFirst(conds: seq<seq<int>>, labels: seq<string>, t: int)
    requires |conds| == |labels|
    ensures var k := FirstTrue(IsIn(conds, t), 0);
            Classify(conds, labels, t) ==
              if |conds| == 0 then Err(SelectEmpty)
              else if k < |conds| then Ok(labels[k]) else Ok(NoGroup)
  {
  }

  /** For any non-empty table, a row gets the label paired with the first list containing its
      id, or `NoGroup` when no list contains it. */
  lemma ClassifyFirstMatch(conds: seq<seq<int>>, labels: seq<string>, t: int)
    requires 0 < |conds| == |labels|
    ensures (exists i :: 0 <= i < |conds| && t in conds[i] && Classify(conds, labels, t) == Ok(labels[i]) &&
                         forall j :: 0 <= j < i ==> t !in conds[j]) ||
            ((forall i :: 0 <= i < |conds| ==> t !in conds[i]) && Classify(conds, labels, t) == Ok(NoGroup))
  {
    var k := FirstTrue(IsIn(conds, t), 0);
    ClassifyFirst(conds, labels, t);
    if k < |conds| {
      assert t in conds[k];
    }
  }

  /** With disjoint lists, an id in list `i` gets label `i`, whatever comes before it. */
  lemma ClassifyDisjoint(conds: seq<seq<int>>, labels: seq<string>, t: int, i: int)
    requires |conds| == |labels| && PairwiseDisjoint(conds)
    requires 0 <= i < |conds| && t in conds[i]
    ensures Classify(conds, labels, t) == Ok(labels[i])
  {
    var m := IsIn(conds, t);
    assert m[i];
    var k := FirstTrue(m, 0);
    assert t in conds[k];
    ClassifyFirst(conds, labels, t);
  }

  /** For disjoint lists, any reordering of the (condition, label) pairs classifies every id the
      same way. */
  lemma ReorderClassify(conds: seq<seq<int>>, labels: seq<string>, perm: seq<int>, t: int)
    requires |conds| == |labels| && PairwiseDisjoint(conds)
    requires IsPerm(perm, |conds|)
    ensures Classify(Reorder(conds, perm), Reorder(labels, perm), t) == Classify(conds, labels, t)
  {
    var conds' := Reorder(conds, perm);
    var labels' := Reorder(labels, perm);
    var m' := IsIn(conds', t);
    var k' := FirstTrue(m', 0);
    ClassifyFirst(conds', labels', t);
    ClassifyFirst(conds, labels, t);
    if i :| 0 <= i < |conds| && t in conds[i] {
      assert i in perm;
      var k :| 0 <= k < |perm| && perm[k] == i;
      assert m'[k];
      assert t in conds[perm[k']];
      ClassifyDisjoint(conds, labels, t, i);
    } else {
      var m := IsIn(conds, t);
      assert FirstTrue(m, 0) == |conds|;
      forall k | 0 <= k < |m'| ensures !m'[k] {
        assert conds'[k] == conds[perm[k]];
      }
    }
  }

  /** Since the lists are disjoint, the order of the table does not matter: any reordering of the
      (condition, label) pairs assigns every topic id the same group. */
  lemma ReorderInvariant(perm: seq<int>, t: int)
    requires IsPerm(perm, |Conditions|)
    ensures Classify(Reorder(Conditions, perm), Reorder(Choices, perm), t) == Ok(GroupOf(t))
  {
    Disjoint();
    ReorderClassify(Conditions, Choices, perm, t);
  }
}
