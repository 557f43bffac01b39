/** Validator-group aggregation (src/features/validators/fetchValidators.ts).
    The contract reads (registered validators, elected signers, validator
    details, group names and urls, eligible groups with their votes, total
    locked gold) are inputs; `MAX_NUM_ELECTABLE_VALIDATORS` is the parameter
    `maxElectable`. The `groups` record is a map beside the sequence of its
    keys in insertion order, which is the order `Object.keys` and
    `Object.values` report. */
module Validators {
  import opened Common

  /** `ValidatorRaw`, with the score already read as a number. */
  datatype ValidatorRaw = ValidatorRaw(ecdsaPublicKey: string, blsPublicKey: string, affiliation: string, score: nat, signer: string)

  datatype ValidatorStatus = Elected | NotElected

  datatype Validator = Validator(address: string, name: string, score: nat, signer: string, status: ValidatorStatus)

  /** `ValidatorGroup`; capacity and votes are the numbers the source renders
      as decimal strings. */
  datatype ValidatorGroup = ValidatorGroup(
    address: string,
    name: string,
    url: string,
    members: map<string, Validator>,
    eligible: bool,
    capacity: nat,
    votes: nat)

  /** The `groups` record: entries and the order their keys were added in. */
  datatype GroupTable = GroupTable(groups: map<string, ValidatorGroup>, order: seq<string>)

  /** The order lists each key exactly once. */
  predicate WellOrdered(t: GroupTable)
  {
    NoDuplicates(t.order) && (set g | g in t.order) == t.groups.Keys
  }

  /** A group as first created for an affiliation. */
  function NewGroup(address: string): (g: ValidatorGroup)
    ensures g.address == address && g.members == map[]
    ensures g.name == "" && g.url == "" && !g.eligible && g.capacity == 0 && g.votes == 0
  {
    ValidatorGroup(address, "", "", map[], false, 0, 0)
  }

  /** The member record for validator `addr`, named after its address. */
  function MakeValidator(addr: string, raw: ValidatorRaw, elected: set<string>): (v: Validator)
    ensures v.address == addr && v.name == addr && v.score == raw.score && v.signer == raw.signer
    ensures v.status == Elected <==> raw.signer in elected
  {
    Validator(addr, addr, raw.score, raw.signer, if raw.signer in elected then Elected else NotElected)
  }

  /** One step of the first loop: create the affiliation's group when it is
      missing, then (re)write the validator as its member. */
  function AddValidator(groups: map<string, ValidatorGroup>, addr: string, raw: ValidatorRaw, elected: set<string>): map<string, ValidatorGroup>
  {
    var g := raw.affiliation;
    var group := if g in groups then groups[g] else NewGroup(g);
    groups[g := group.(members := group.members[addr := MakeValidator(addr, raw, elected)])]
  }

  /** The groups after the first loop has seen every validator. */
  function Grouped(addrs: seq<string>, details: seq<ValidatorRaw>, elected: set<string>): map<string, ValidatorGroup>
    requires |addrs| == |details|
    decreases |addrs|
  {
    if addrs == [] then map[]
    else
      var n := |addrs| - 1;
      AddValidator(Grouped(addrs[..n], details[..n], elected), addrs[n], details[n], elected)
  }

  /** There is one group per distinct affiliation. */
  lemma {:induction false} GroupedKeys(addrs: seq<string>, details: seq<ValidatorRaw>, elected: set<string>)
    requires |addrs| == |details|
    ensures forall g :: g in Grouped(addrs, details, elected) <==> g in Affiliations(details)
    decreases |addrs|
  {
    if addrs != [] {
      var n := |addrs| - 1;
      GroupedKeys(addrs[..n], details[..n], elected);
      assert Affiliations(details) == Affiliations(details[..n]) + [details[n].affiliation];
    }
  }

  function Affiliations(details: seq<ValidatorRaw>): (s: seq<string>)
    ensures |s| == |details| && forall i :: 0 <= i < |details| ==> s[i] == details[i].affiliation
  {
    seq(|details|, i requires 0 <= i < |details| => details[i].affiliation)
  }

  /** The distinct elements of `s`, in the order they first appear. */
  function FirstOccurrences(s: seq<string>): (r: seq<string>)
    ensures NoDuplicates(r)
    ensures forall x :: x in r <==> x in s
    ensures |r| <= |s|
  {
    if s == [] then []
    else
      var n := |s| - 1;
      var r0 := FirstOccurrences(s[..n]);
      assert s == s[..n] + [s[n]];
      if s[n] in r0 then r0 else r0 + [s[n]]
  }

  /** The first position of `x` in `s`. */
  function FirstIndex(s: seq<string>, x: string): (k: nat)
    requires x in s
    ensures k < |s| && s[k] == x && forall j :: 0 <= j < k ==> s[j] != x
  {
    if s[0] == x then 0 else 1 + FirstIndex(s[1..], x)
  }

  /** Appending an element does not move a first position already there. */
  lemma FirstIndexAppend(p: seq<string>, x: string, y: string)
    requires y in p
    ensures FirstIndex(p + [x], y) == FirstIndex(p, y)
  {
    var k, k' := FirstIndex(p, y), FirstIndex(p + [x], y);
    assert forall j :: 0 <= j < |p| ==> (p + [x])[j] == p[j];
  }

  /** The keys come in the order of their first appearance in `s`. */
  lemma {:induction false} FirstOccurrencesInOrder(s: seq<string>)
    ensures forall i, j :: 0 <= i < j < |FirstOccurrences(s)| ==>
      FirstIndex(s, FirstOccurrences(s)[i]) < FirstIndex(s, FirstOccurrences(s)[j])
  {
    if s != [] {
      var n := |s| - 1;
      var p := s[..n];
      var r0, r := FirstOccurrences(p), FirstOccurrences(s);
      FirstOccurrencesInOrder(p);
      assert s == p + [s[n]];
      forall i, j | 0 <= i < j < |r|
        ensures FirstIndex(s, r[i]) < FirstIndex(s, r[j])
      {
        assert r[i] == r0[i] && r[i] in p;
        FirstIndexAppend(p, s[n], r[i]);
        if j < |r0| {
          assert r[j] == r0[j];
          FirstIndexAppend(p, s[n], r[j]);
        } else {
          assert r[j] == s[n] && s[n] !in p;
          assert FirstIndex(s, r[j]) == n by {
            assert forall k :: 0 <= k < n ==> p[k] == s[k];
          }
        }
      }
    }
  }

  /** The last position of `x` in `s`, or -1; a later vote entry for the
      same group overwrites an earlier one. */
  function LastIndex(s: seq<string>, x: string): (k: int)
    ensures -1 <= k < |s|
    ensures k >= 0 ==> s[k] == x && forall j :: k < j < |s| ==> s[j] != x
    ensures k == -1 <==> x !in s
  {
    if s == [] then -1
    else if s[|s| - 1] == x then |s| - 1
    else
      var k := LastIndex(s[..|s| - 1], x);
      assert s == s[..|s| - 1] + [s[|s| - 1]];
      k
  }

  /** `getValidatorGroupCapacity`: the locked gold share of a group with
      one more member, floor-divided by the number of electable seats;
      `BigNumber.div` throws on a zero divisor. */
  function GetValidatorGroupCapacity(group: ValidatorGroup, totalValidators: nat, totalLocked: nat, maxElectable: nat): (r: Result<nat>)
    ensures r.Failure? <==> maxElectable == 0 || totalValidators == 0
    ensures r.Failure? ==> r.error == "Division by zero"
    ensures r.Success? ==> IsFloorDiv(r.value, totalLocked * (|group.members| + 1), Min(maxElectable, totalValidators))
  {
    var seats := Min(maxElectable, totalValidators);
    if seats == 0 then Failure("Division by zero")
    else
      var x := totalLocked * (|group.members| + 1);
      FloorDivBounds(x, seats);
      Success(x / seats)
  }

  /** `q` is `x` divided by `d`, rounded down. */
  predicate IsFloorDiv(q: nat, x: nat, d: nat)
  {
    q * d <= x < (q + 1) * d
  }

  /** The floor quotient is the largest multiple of the divisor within `x`. */
  lemma FloorDivBounds(x: nat, d: nat)
    requires d > 0
    ensures IsFloorDiv(x / d, x, d)
  {
    assert x == d * (x / d) + x % d;
    assert (x / d + 1) * d == (x / d) * d + d;
  }

  /** A group is created with its defaults and keeps them through the first
      loop; each member is keyed by its own address, named after it, and
      Elected exactly when its signer was elected. */
  lemma {:induction false} GroupedShape(addrs: seq<string>, details: seq<ValidatorRaw>, elected: set<string>, g: string)
    requires |addrs| == |details|
    requires g in Grouped(addrs, details, elected)
    ensures var group := Grouped(addrs, details, elected)[g];
      && group.address == g && group.name == "" && group.url == ""
      && !group.eligible && group.capacity == 0 && group.votes == 0
      && forall k :: k in group.members ==>
           && group.members[k].address == k && group.members[k].name == k
           && (group.members[k].status == Elected <==> group.members[k].signer in elected)
    decreases |addrs|
  {
    var n := |addrs| - 1;
    var prev := Grouped(addrs[..n], details[..n], elected);
    if g in prev {
      GroupedShape(addrs[..n], details[..n], elected, g);
    }
  }

  /** The members a group held before a step of the first loop. */
  function MembersBefore(groups: map<string, ValidatorGroup>, g: string): map<string, Validator>
  {
    if g in groups then groups[g].members else map[]
  }

  /** A step of the first loop touches only the listed affiliation's group,
      and only the listed validator within it. */
  lemma AddValidatorMembers(groups: map<string, ValidatorGroup>, addr: string, raw: ValidatorRaw, elected: set<string>, g: string)
    ensures MembersBefore(AddValidator(groups, addr, raw, elected), g) ==
      if g == raw.affiliation then MembersBefore(groups, g)[addr := MakeValidator(addr, raw, elected)]
      else MembersBefore(groups, g)
  {
  }

  /** A validator is a member of a group exactly when some listing pairs its
      address with that affiliation. */
  lemma {:induction false} GroupedMembership(addrs: seq<string>, details: seq<ValidatorRaw>, elected: set<string>, g: string, k: string)
    requires |addrs| == |details|
    ensures k in MembersBefore(Grouped(addrs, details, elected), g) <==>
      exists i :: 0 <= i < |addrs| && addrs[i] == k && details[i].affiliation == g
    decreases |addrs|
  {
    if addrs != [] {
      var n := |addrs| - 1;
      var prev := Grouped(addrs[..n], details[..n], elected);
      GroupedMembership(addrs[..n], details[..n], elected, g, k);
      var members := MembersBefore(Grouped(addrs, details, elected), g);
      AddValidatorMembers(prev, addrs[n], details[n], elected, g);
      if exists i :: 0 <= i < n && addrs[..n][i] == k && details[..n][i].affiliation == g {
        var i :| 0 <= i < n && addrs[..n][i] == k && details[..n][i].affiliation == g;
        assert addrs[i] == k && details[i].affiliation == g;
      }
      if exists i :: 0 <= i < |addrs| && addrs[i] == k && details[i].affiliation == g {
        var i :| 0 <= i < |addrs| && addrs[i] == k && details[i].affiliation == g;
        if i < n {
          assert addrs[..n][i] == k && details[..n][i].affiliation == g;
        }
      }
    }
  }

  /** The position of the last listing of validator `k` under affiliation
      `g`, or -1 when there is none. */
  function LastListing(addrs: seq<string>, details: seq<ValidatorRaw>, g: string, k: string): (i: int)
    requires |addrs| == |details|
    ensures -1 <= i < |addrs|
    ensures i >= 0 ==> addrs[i] == k && details[i].affiliation == g
    ensures forall j :: i < j < |addrs| ==> !(addrs[j] == k && details[j].affiliation == g)
    decreases |addrs|
  {
    if addrs == [] then -1
    else
      var n := |addrs| - 1;
      if addrs[n] == k && details[n].affiliation == g then n
      else LastListing(addrs[..n], details[..n], g, k)
  }

  /** A member's record comes from the last listing of its address under
      that affiliation. */
  lemma {:induction false} GroupedMemberRecord(addrs: seq<string>, details: seq<ValidatorRaw>, elected: set<string>, g: string, k: string)
    requires |addrs| == |details|
    requires k in MembersBefore(Grouped(addrs, details, elected), g)
    ensures LastListing(addrs, details, g, k) >= 0
    ensures MembersBefore(Grouped(addrs, details, elected), g)[k]
         == MakeValidator(k, details[LastListing(addrs, details, g, k)], elected)
    decreases |addrs|
  {
    var n := |addrs| - 1;
    var prev := Grouped(addrs[..n], details[..n], elected);
    assert Grouped(addrs, details, elected) == AddValidator(prev, addrs[n], details[n], elected);
    AddValidatorMembers(prev, addrs[n], details[n], elected, g);
    if !(addrs[n] == k && details[n].affiliation == g) {
      GroupedMemberRecord(addrs[..n], details[..n], elected, g, k);
    }
  }

  /** With distinct validator addresses, each validator is a member of the
      group of its own affiliation and of no other. */
  lemma EachValidatorInItsGroupOnly(addrs: seq<string>, details: seq<ValidatorRaw>, elected: set<string>, i: nat, g: string)
    requires |addrs| == |details| && NoDuplicates(addrs)
    requires i < |addrs| && g in Grouped(addrs, details, elected)
    ensures addrs[i] in Grouped(addrs, details, elected)[g].members <==> g == details[i].affiliation
  {
    GroupedMembership(addrs, details, elected, g, addrs[i]);
  }

  /** The first loop: group the validators by affiliation. */
  method BuildGroups(validatorAddrs: seq<string>, electedSigners: seq<string>, details: seq<ValidatorRaw>) returns (r: Result<GroupTable>)
    ensures validatorAddrs == [] ==> r == Failure("No registered validators found")
    ensures validatorAddrs != [] && electedSigners == [] ==> r == Failure("No elected signers found")
    ensures validatorAddrs != [] && electedSigners != [] && |validatorAddrs| != |details| ==>
      r == Failure("Validator list / details size mismatch")
    ensures r.Success? <==> validatorAddrs != [] && electedSigners != [] && |validatorAddrs| == |details|
    ensures r.Success? ==>
      && r.value.groups == Grouped(validatorAddrs, details, set s | s in electedSigners)
      && r.value.order == FirstOccurrences(Affiliations(details))
      && WellOrdered(r.value)
  {
    if |validatorAddrs| == 0 {
      return Failure("No registered validators found");
    }
    if |electedSigners| == 0 {
      return Failure("No elected signers found");
    }
    var elected := set s | s in electedSigners;
    if |validatorAddrs| != |details| {
      return Failure("Validator list / details size mismatch");
    }
    var groups, order := GroupByAffiliation(validatorAddrs, details, elected);
    r := Success(GroupTable(groups, order));
  }

  /** The loop of the first stage: each validator joins the group of its
      affiliation, which is created (and its key recorded) on first sight. */
  method GroupByAffiliation(validatorAddrs: seq<string>, details: seq<ValidatorRaw>, elected: set<string>)
    returns (groups: map<string, ValidatorGroup>, order: seq<string>)
    requires |validatorAddrs| == |details|
    ensures groups == Grouped(validatorAddrs, details, elected)
    ensures order == FirstOccurrences(Affiliations(details))
    ensures WellOrdered(GroupTable(groups, order))
  {
    groups := map[];
    order := [];
    var i := 0;
    while i < |validatorAddrs|
      invariant 0 <= i <= |validatorAddrs|
      invariant groups == Grouped(validatorAddrs[..i], details[..i], elected)
      invariant order == FirstOccurrences(Affiliations(details)[..i])
    {
      var groupAddr := details[i].affiliation;
      GroupingStep(validatorAddrs, details, elected, i, groups, order);
      if groupAddr !in groups {
        groups := groups[groupAddr := NewGroup(groupAddr)];
        order := order + [groupAddr];
      }
      var group := groups[groupAddr];
      groups := groups[groupAddr := group.(members := group.members[validatorAddrs[i] := MakeValidator(validatorAddrs[i], details[i], elected)])];
      i := i + 1;
    }
    assert validatorAddrs[..i] == validatorAddrs;
    assert details[..i] == details;
    assert Affiliations(details)[..i] == Affiliations(details);
    KeysFollowOrder(validatorAddrs, details, elected, i);
  }

  /** The keys of the groups built so far are the affiliations listed so
      far, in first-appearance order. */
  lemma KeysFollowOrder(addrs: seq<string>, details: seq<ValidatorRaw>, elected: set<string>, i: nat)
    requires i <= |addrs| == |details|
    ensures forall g :: g in FirstOccurrences(Affiliations(details)[..i]) <==> g in Grouped(addrs[..i], details[..i], elected)
  {
    assert Affiliations(details)[..i] == Affiliations(details[..i]);
    GroupedKeys(addrs[..i], details[..i], elected);
  }

  /** The body of the first loop, applied to the state after `i`
      validators, gives the state after `i + 1`. */
  lemma GroupingStep(addrs: seq<string>, details: seq<ValidatorRaw>, elected: set<string>, i: nat,
                     groups: map<string, ValidatorGroup>, order: seq<string>)
    requires i < |addrs| == |details|
    requires groups == Grouped(addrs[..i], details[..i], elected)
    requires order == FirstOccurrences(Affiliations(details)[..i])
    ensures var g := details[i].affiliation;
      var created := if g !in groups then groups[g := NewGroup(g)] else groups;
      && created[g := created[g].(members := created[g].members[addrs[i] := MakeValidator(addrs[i], details[i], elected)])]
         == Grouped(addrs[..i + 1], details[..i + 1], elected)
      && (if g !in groups then order + [g] else order) == FirstOccurrences(Affiliations(details)[..i + 1])
  {
    var g := details[i].affiliation;
    KeysFollowOrder(addrs, details, elected, i);
    GroupedStep(addrs, details, elected, i);
    FirstOccurrencesStep(Affiliations(details), i);
    var created := if g !in groups then groups[g := NewGroup(g)] else groups;
    assert created[g := created[g].(members := created[g].members[addrs[i] := MakeValidator(addrs[i], details[i], elected)])]
        == AddValidator(groups, addrs[i], details[i], elected);
  }

  lemma GroupedStep(addrs: seq<string>, details: seq<ValidatorRaw>, elected: set<string>, i: nat)
    requires i < |addrs| == |details|
    ensures Grouped(addrs[..i + 1], details[..i + 1], elected)
         == AddValidator(Grouped(addrs[..i], details[..i], elected), addrs[i], details[i], elected)
  {
    assert addrs[..i + 1][..i] == addrs[..i];
    assert details[..i + 1][..i] == details[..i];
  }

  lemma FirstOccurrencesStep(s: seq<string>, i: nat)
    requires i < |s|
    ensures FirstOccurrences(s[..i + 1])
         == if s[i] in FirstOccurrences(s[..i]) then FirstOccurrences(s[..i]) else FirstOccurrences(s[..i]) + [s[i]]
  {
    assert s[..i + 1][..i] == s[..i];
  }

  /** The second loop's effect on one group. */
  function Detailed(group: ValidatorGroup, name: string, url: string): ValidatorGroup
  {
    group.(name := name, url := url)
  }

  /** `t2` is `t` with the j-th name and url given to the j-th key, and no
      other change. */
  predicate DetailsApplied(t: GroupTable, groupNames: seq<string>, groupUrls: seq<string>, t2: GroupTable)
  {
    && WellOrdered(t)
    && |groupNames| == |groupUrls| == |t.order|
    && t2.order == t.order
    && t2.groups.Keys == t.groups.Keys
    && forall j :: 0 <= j < |t.order| ==>
         t2.groups[t.order[j]] == Detailed(t.groups[t.order[j]], groupNames[j], groupUrls[j])
  }

  /** The second loop: the i-th name and url go to the i-th key. */
  method ApplyGroupDetails(t: GroupTable, groupNames: seq<string>, groupUrls: seq<string>) returns (r: Result<GroupTable>)
    requires WellOrdered(t)
    ensures r.Failure? <==> |t.order| != |groupNames| || |t.order| != |groupUrls|
    ensures r.Failure? ==> r.error == "Group list / details size mismatch"
    ensures r.Success? ==> DetailsApplied(t, groupNames, groupUrls, r.value)
  {
    if |t.order| != |groupNames| || |t.order| != |groupUrls| {
      return Failure("Group list / details size mismatch");
    }
    var groups := t.groups;
    var i := 0;
    while i < |t.order|
      invariant 0 <= i <= |t.order|
      invariant groups.Keys == t.groups.Keys
      invariant forall j :: 0 <= j < i ==> groups[t.order[j]] == Detailed(t.groups[t.order[j]], groupNames[j], groupUrls[j])
      invariant forall j :: i <= j < |t.order| ==> groups[t.order[j]] == t.groups[t.order[j]]
    {
      var groupAddr := t.order[i];
      groups := groups[groupAddr := Detailed(groups[groupAddr], groupNames[i], groupUrls[i])];
      i := i + 1;
    }
    r := Success(GroupTable(groups, t.order));
  }

  /** The third loop's effect on one eligible group. */
  function Voted(group: ValidatorGroup, capacity: nat, votes: nat): ValidatorGroup
  {
    group.(eligible := true, capacity := capacity, votes := votes)
  }

  /** Why the third loop throws: an eligible address with no group, a zero
      capacity divisor, or a vote list shorter than the address list. */
  predicate VotesFail(t: GroupTable, eligibleGroups: seq<string>, groupVotes: seq<nat>, totalValidators: nat, maxElectable: nat)
  {
    || (exists i :: 0 <= i < |eligibleGroups| && eligibleGroups[i] !in t.groups)
    || (|eligibleGroups| > 0 && (maxElectable == 0 || totalValidators == 0))
    || |groupVotes| < |eligibleGroups|
  }

  /** The error the third loop throws when it resumes at index `i`, or
      `None`: the first eligible entry that has no group, no capacity
      divisor, or no vote count decides the message. Only the keys of the
      groups matter, and the loop does not change them. */
  function VoteErrorFrom(keys: set<string>, eligibleGroups: seq<string>, groupVotes: seq<nat>,
                         totalValidators: nat, maxElectable: nat, i: nat): Option<string>
    decreases |eligibleGroups| - i
  {
    if i >= |eligibleGroups| then None
    else if eligibleGroups[i] !in keys then Some("Cannot set properties of undefined")
    else if maxElectable == 0 || totalValidators == 0 then Some("Division by zero")
    else if i >= |groupVotes| then Some("Cannot read properties of undefined")
    else VoteErrorFrom(keys, eligibleGroups, groupVotes, totalValidators, maxElectable, i + 1)
  }

  /** The loop throws exactly when one of the three reasons of `VotesFail`
      holds somewhere from index `i` on. */
  lemma {:induction false} VoteErrorMatchesVotesFail(t: GroupTable, eligibleGroups: seq<string>, groupVotes: seq<nat>,
                                                     totalValidators: nat, maxElectable: nat, i: nat)
    requires i <= |eligibleGroups|
    ensures VoteErrorFrom(t.groups.Keys, eligibleGroups, groupVotes, totalValidators, maxElectable, i).Some? <==>
      || (exists j :: i <= j < |eligibleGroups| && eligibleGroups[j] !in t.groups)
      || (i < |eligibleGroups| && (maxElectable == 0 || totalValidators == 0))
      || (i < |eligibleGroups| && |groupVotes| < |eligibleGroups|)
    ensures i == 0 ==>
      (VoteErrorFrom(t.groups.Keys, eligibleGroups, groupVotes, totalValidators, maxElectable, 0).Some? <==>
       VotesFail(t, eligibleGroups, groupVotes, totalValidators, maxElectable))
    decreases |eligibleGroups| - i
  {
    if i < |eligibleGroups| {
      VoteErrorMatchesVotesFail(t, eligibleGroups, groupVotes, totalValidators, maxElectable, i + 1);
    }
  }

  /** `t2` is `t` with every eligible group marked and given its capacity
      and its last listed votes, and no other change. */
  predicate VotesApplied(t: GroupTable, eligibleGroups: seq<string>, groupVotes: seq<nat>,
                         totalValidators: nat, totalLocked: nat, maxElectable: nat, t2: GroupTable)
  {
    && !VotesFail(t, eligibleGroups, groupVotes, totalValidators, maxElectable)
    && t2.order == t.order
    && t2.groups.Keys == t.groups.Keys
    && forall g :: g in t.groups ==>
         t2.groups[g] ==
           if g in eligibleGroups then
             Voted(t.groups[g],
                   GetValidatorGroupCapacity(t.groups[g], totalValidators, totalLocked, maxElectable).value,
                   groupVotes[LastIndex(eligibleGroups, g)])
           else t.groups[g]
  }

  /** The third loop: eligible groups are marked, given their capacity and
      their (last listed) votes; all other groups keep what they had. */
  method ApplyVotes(t: GroupTable, eligibleGroups: seq<string>, groupVotes: seq<nat>,
                    totalValidators: nat, totalLocked: nat, maxElectable: nat) returns (r: Result<GroupTable>)
    ensures r.Failure? <==> VotesFail(t, eligibleGroups, groupVotes, totalValidators, maxElectable)
    ensures r.Failure? ==> Some(r.error) == VoteErrorFrom(t.groups.Keys, eligibleGroups, groupVotes, totalValidators, maxElectable, 0)
    ensures r.Success? ==> VoteErrorFrom(t.groups.Keys, eligibleGroups, groupVotes, totalValidators, maxElectable, 0).None?
    ensures r.Success? ==> VotesApplied(t, eligibleGroups, groupVotes, totalValidators, totalLocked, maxElectable, r.value)
  {
    var groups := t.groups;
    var i := 0;
    assert eligibleGroups[..0] == [];
    while i < |eligibleGroups|
      invariant 0 <= i <= |eligibleGroups|
      invariant VotesApplied(t, eligibleGroups[..i], groupVotes, totalValidators, totalLocked, maxElectable, GroupTable(groups, t.order))
      invariant VoteErrorFrom(t.groups.Keys, eligibleGroups, groupVotes, totalValidators, maxElectable, 0)
             == VoteErrorFrom(t.groups.Keys, eligibleGroups, groupVotes, totalValidators, maxElectable, i)
    {
      var groupAddr := eligibleGroups[i];
      if groupAddr !in groups {
        return Failure("Cannot set properties of undefined");
      }
      var group := groups[groupAddr];
      var capacity := GetValidatorGroupCapacity(group, totalValidators, totalLocked, maxElectable);
      if capacity.Failure? {
        return Failure(capacity.error);
      }
      if i >= |groupVotes| {
        return Failure("Cannot read properties of undefined");
      }
      VotesStep(t, eligibleGroups, groupVotes, totalValidators, totalLocked, maxElectable, groups, i);
      groups := groups[groupAddr := Voted(group, capacity.value, groupVotes[i])];
      i := i + 1;
    }
    assert eligibleGroups[..i] == eligibleGroups;
    r := Success(GroupTable(groups, t.order));
  }

  /** One iteration of the third loop extends the applied prefix by one. */
  lemma VotesStep(t: GroupTable, eligibleGroups: seq<string>, groupVotes: seq<nat>,
                  totalValidators: nat, totalLocked: nat, maxElectable: nat, groups: map<string, ValidatorGroup>, i: nat)
    requires i < |eligibleGroups| && i < |groupVotes| && eligibleGroups[i] in t.groups
    requires maxElectable > 0 && totalValidators > 0
    requires VotesApplied(t, eligibleGroups[..i], groupVotes, totalValidators, totalLocked, maxElectable, GroupTable(groups, t.order))
    ensures eligibleGroups[i] in groups
    ensures var g := eligibleGroups[i];
      VotesApplied(t, eligibleGroups[..i + 1], groupVotes, totalValidators, totalLocked, maxElectable,
        GroupTable(groups[g := Voted(groups[g], GetValidatorGroupCapacity(groups[g], totalValidators, totalLocked, maxElectable).value, groupVotes[i])], t.order))
  {
    var g := eligibleGroups[i];
    var prefix := eligibleGroups[..i + 1];
    assert prefix == eligibleGroups[..i] + [g];
    assert |groups[g].members| == |t.groups[g].members|;
    forall k | 0 <= k < |prefix|
      ensures prefix[k] in t.groups
    {
      if k < i {
        assert prefix[k] == eligibleGroups[..i][k];
      }
    }
  }

  /** `Object.values(groups)`: the entries in key order. */
  function Values(t: GroupTable): (vs: seq<ValidatorGroup>)
    requires WellOrdered(t)
    ensures |vs| == |t.order| && forall j :: 0 <= j < |t.order| ==> vs[j] == t.groups[t.order[j]]
  {
    seq(|t.order|, j requires 0 <= j < |t.order| && WellOrdered(t) => t.groups[t.order[j]])
  }

  /** A group as `fetchValidatorGroupInfo` returns it: the first loop's
      group `group` under key `g`, with its name and url and, when `g` is
      eligible, its capacity and last listed votes. */
  function FinalGroup(group: ValidatorGroup, g: string, name: string, url: string,
                      eligibleGroups: seq<string>, groupVotes: seq<nat>,
                      totalValidators: nat, totalLocked: nat, maxElectable: nat): ValidatorGroup
    requires g in eligibleGroups ==> maxElectable > 0 && totalValidators > 0 && |groupVotes| >= |eligibleGroups|
  {
    if g in eligibleGroups then
      Voted(Detailed(group, name, url),
            GetValidatorGroupCapacity(group, totalValidators, totalLocked, maxElectable).value,
            groupVotes[LastIndex(eligibleGroups, g)])
    else Detailed(group, name, url)
  }

  /** The second and third stages compose key by key into `FinalGroup`. */
  lemma StagesCompose(built: GroupTable, groupNames: seq<string>, groupUrls: seq<string>, detailed: GroupTable,
                      eligibleGroups: seq<string>, groupVotes: seq<nat>,
                      totalValidators: nat, totalLocked: nat, maxElectable: nat, voted: GroupTable, j: nat)
    requires DetailsApplied(built, groupNames, groupUrls, detailed)
    requires VotesApplied(detailed, eligibleGroups, groupVotes, totalValidators, totalLocked, maxElectable, voted)
    requires j < |built.order|
    ensures built.order[j] in built.groups
    ensures built.order[j] in eligibleGroups ==> maxElectable > 0 && totalValidators > 0 && |groupVotes| >= |eligibleGroups|
    ensures voted.groups[built.order[j]]
         == FinalGroup(built.groups[built.order[j]], built.order[j], groupNames[j], groupUrls[j],
                       eligibleGroups, groupVotes, totalValidators, totalLocked, maxElectable)
  {
    var g := built.order[j];
    assert g in built.groups;
    var d := detailed.groups[g];
    assert d == Detailed(built.groups[g], groupNames[j], groupUrls[j]);
    if g in eligibleGroups {
      assert GetValidatorGroupCapacity(d, totalValidators, totalLocked, maxElectable)
          == GetValidatorGroupCapacity(built.groups[g], totalValidators, totalLocked, maxElectable);
    }
  }

  /** `fetchValidatorGroupInfo` after its contract reads: the groups in key
      order, each with its members, its name and url, and (when eligible)
      its capacity and votes. */
  method FetchValidatorGroupInfo(
    validatorAddrs: seq<string>,
    electedSigners: seq<string>,
    details: seq<ValidatorRaw>,
    groupNames: seq<string>,
    groupUrls: seq<string>,
    eligibleGroups: seq<string>,
    groupVotes: seq<nat>,
    totalLocked: nat,
    maxElectable: nat) returns (r: Result<seq<ValidatorGroup>>)
    ensures validatorAddrs == [] ==> r == Failure("No registered validators found")
    ensures validatorAddrs != [] && electedSigners == [] ==> r == Failure("No elected signers found")
    ensures validatorAddrs != [] && electedSigners != [] && |validatorAddrs| != |details| ==>
      r == Failure("Validator list / details size mismatch")
    ensures (validatorAddrs != [] && electedSigners != [] && |validatorAddrs| == |details|
             && (|FirstOccurrences(Affiliations(details))| != |groupNames| || |FirstOccurrences(Affiliations(details))| != |groupUrls|)) ==>
      r == Failure("Group list / details size mismatch")
    ensures (validatorAddrs != [] && electedSigners != [] && |validatorAddrs| == |details|
             && |FirstOccurrences(Affiliations(details))| == |groupNames| == |groupUrls|) ==>
      var voteError := VoteErrorFrom(Grouped(validatorAddrs, details, set s | s in electedSigners).Keys,
                                     eligibleGroups, groupVotes, |validatorAddrs|, maxElectable, 0);
      (voteError.Some? ==> r == Failure(voteError.value)) && (voteError.None? ==> r.Success?)
    ensures r.Success? <==>
      && validatorAddrs != [] && electedSigners != [] && |validatorAddrs| == |details|
      && |FirstOccurrences(Affiliations(details))| == |groupNames| == |groupUrls|
      && VoteErrorFrom(Grouped(validatorAddrs, details, set s | s in electedSigners).Keys,
                       eligibleGroups, groupVotes, |validatorAddrs|, maxElectable, 0).None?
    ensures r.Success? ==>
      && |validatorAddrs| == |details| > 0
      && (eligibleGroups != [] ==> maxElectable > 0)
      && |groupVotes| >= |eligibleGroups|
      && var order := FirstOccurrences(Affiliations(details));
         var grouped := Grouped(validatorAddrs, details, set s | s in electedSigners);
         && (forall g :: g in eligibleGroups ==> g in order)
         && (forall g :: g in order ==> g in grouped)
         && |r.value| == |order| == |groupNames| == |groupUrls|
         && forall j :: 0 <= j < |order| ==>
              r.value[j] == FinalGroup(grouped[order[j]], order[j], groupNames[j], groupUrls[j],
                                       eligibleGroups, groupVotes, |validatorAddrs|, totalLocked, maxElectable)
  {
    var built := BuildGroups(validatorAddrs, electedSigners, details);
    if built.Failure? {
      return Failure(built.error);
    }
    var detailed := ApplyGroupDetails(built.value, groupNames, groupUrls);
    if detailed.Failure? {
      return Failure(detailed.error);
    }
    var voted := ApplyVotes(detailed.value, eligibleGroups, groupVotes, |validatorAddrs|, totalLocked, maxElectable);
    if voted.Failure? {
      return Failure(voted.error);
    }
    var t := voted.value;
    assert WellOrdered(t) by {
      assert t.order == built.value.order;
      assert t.groups.Keys == built.value.groups.Keys;
    }
    r := Success(Values(t));
    forall g | g in eligibleGroups
      ensures g in t.order
    {
      var i :| 0 <= i < |eligibleGroups| && eligibleGroups[i] == g;
    }
    forall j | 0 <= j < |t.order|
      ensures r.value[j] == FinalGroup(built.value.groups[t.order[j]], t.order[j], groupNames[j], groupUrls[j],
                                       eligibleGroups, groupVotes, |validatorAddrs|, totalLocked, maxElectable)
    {
      StagesCompose(built.value, groupNames, groupUrls, detailed.value, eligibleGroups, groupVotes,
                    |validatorAddrs|, totalLocked, maxElectable, t, j);
    }
  }
}
