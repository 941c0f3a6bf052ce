/**
 * The `/mr-build-my-team` command: heroes are sorted into front line, damage
 * and support by the text of their role, one hero is picked from each non-empty
 * group, and the team is filled up to three distinct heroes from the whole list.
 *
 * A hero is identified by its position in the fetched list: `team.includes`
 * compares objects by identity, and every object element of a parsed JSON array
 * is a distinct object. Lists whose elements are not objects are not modelled.
 */
module MrBuildMyTeam {
  import opened JsValues

  /** The fields of a hero object the command reads; absent ones are `Undefined`. */
  datatype Hero = Hero(name: Value, role: Value, heroClass: Value)

  datatype Role = Front | Damage | Support

  /** `getHeroes()` threw, answered with something other than an array, or gave a list. */
  datatype HeroFetch = FetchError | NotAnArray | HeroArray(heroes: seq<Hero>)

  /** One embed field: named `Slot ${number}`, valued `**${name}** – ${role}`. */
  datatype Slot = Slot(number: nat, name: string, role: string)

  /** `team` holds the positions of the chosen heroes in the fetched list. */
  datatype TeamReply = CouldNotFetch | NotEnoughHeroes | Suggested(team: seq<nat>, slots: seq<Slot>)

  const TeamSize := 3
  const UnknownRole := "Unknown role"

  // ---------------------------------------------------------------- classification

  /** `(h.role || h.class || "").toString().toLowerCase()`. */
  function RoleText(h: Hero): (t: string)
    ensures Truthy(h.role) ==> t == ToLower(ToStr(h.role))
    ensures !Truthy(h.role) && Truthy(h.heroClass) ==> t == ToLower(ToStr(h.heroClass))
    ensures h.role.Str? && h.role.s != "" ==> t == ToLower(h.role.s)
    ensures !Truthy(h.role) && h.heroClass.Str? && h.heroClass.s != "" ==> t == ToLower(h.heroClass.s)
    ensures !Truthy(h.role) && !Truthy(h.heroClass) ==> t == ""
  {
    ToLower(ToStr(if Truthy(h.role) then h.role else if Truthy(h.heroClass) then h.heroClass else Str("")))
  }

  /** The group a hero goes to: "tank" or "front" wins over "support" or "heal",
      and everything else is damage. */
  function Classify(h: Hero): (r: Role)
    ensures r == Front <==> Contains(RoleText(h), "tank") || Contains(RoleText(h), "front")
    ensures r == Support <==> !(Contains(RoleText(h), "tank") || Contains(RoleText(h), "front"))
                              && (Contains(RoleText(h), "support") || Contains(RoleText(h), "heal"))
  {
    var text := RoleText(h);
    if Contains(text, "tank") || Contains(text, "front") then Front
    else if Contains(text, "support") || Contains(text, "heal") then Support
    else Damage
  }

  /** Upper case does not matter. */
  lemma ClassifyIgnoresCase()
    ensures Classify(Hero(Undefined, Str("TANK"), Undefined)) == Front
  {
    assert ToLower("TANK") == "tank";
    assert "tank"[..4] == "tank";
  }

  /** `class` is read when `role` is absent. */
  lemma ClassifyFallsBackToClass()
    ensures Classify(Hero(Undefined, Undefined, Str("heal"))) == Support
  {
    assert ToLower("heal") == "heal";
    assert "heal"[..4] == "heal" && "heal"[1..] == "eal";
  }

  /** A role naming both a front-line and a support word is front line. */
  lemma ClassifyFrontWins()
    ensures Classify(Hero(Undefined, Str("front support"), Undefined)) == Front
  {
    assert ToLower("front support") == "front support";
    assert "front support"[..5] == "front";
  }

  /** An array role is read through its text: `["Tank"]` is front line. */
  lemma ClassifyArrayRole()
    ensures Classify(Hero(Undefined, Arr([Str("Tank")]), Undefined)) == Front
  {
    ArrayConversions();
    assert ToLower("Tank") == "tank";
    assert "tank"[..4] == "tank";
  }

  /** A hero with neither role nor class is damage. */
  lemma ClassifyDefaultsToDamage()
    ensures Classify(Hero(Undefined, Null, Null)) == Damage
  {
    assert RoleText(Hero(Undefined, Null, Null)) == "";
  }

  /** Each hero's group, position by position. */
  function Roles(heroes: seq<Hero>): (roles: seq<Role>)
    ensures |roles| == |heroes|
    ensures forall i :: 0 <= i < |heroes| ==> roles[i] == Classify(heroes[i])
  {
    seq(|heroes|, i requires 0 <= i < |heroes| => Classify(heroes[i]))
  }

  /** The positions in group `role`, in list order. */
  function Bucket(roles: seq<Role>, role: Role): (b: seq<nat>)
    ensures forall i :: i in b <==> 0 <= i < |roles| && roles[i] == role
    ensures forall p, q :: 0 <= p < q < |b| ==> b[p] < b[q]
    decreases |roles|
  {
    if roles == [] then []
    else
      var n := |roles| - 1;
      var earlier := Bucket(roles[..n], role);
      assert forall i :: i in earlier ==> i < n && roles[i] == roles[..n][i];
      assert forall p :: 0 <= p < |earlier| ==> earlier[p] in earlier;
      earlier + (if roles[n] == role then [n] else [])
  }

  /** The three groups split the list: every hero is in exactly one, so their
      sizes add up to the number of heroes. */
  lemma {:induction false} BucketsPartition(roles: seq<Role>)
    ensures |Bucket(roles, Front)| + |Bucket(roles, Damage)| + |Bucket(roles, Support)| == |roles|
    decreases |roles|
  {
    if roles != [] {
      BucketsPartition(roles[..|roles| - 1]);
    }
  }

  /** Extending the list by one hero extends its group's bucket by that position. */
  lemma BucketStep(roles: seq<Role>, i: nat, role: Role)
    requires i < |roles|
    ensures Bucket(roles[..i + 1], role) == Bucket(roles[..i], role) + (if roles[i] == role then [i] else [])
  {
    assert roles[..i + 1][..i] == roles[..i];
  }

  /** `heroes.forEach(h => <push h onto front, support or damage>)`. */
  method Partition(heroes: seq<Hero>) returns (front: seq<nat>, damage: seq<nat>, support: seq<nat>)
    ensures front == Bucket(Roles(heroes), Front)
    ensures damage == Bucket(Roles(heroes), Damage)
    ensures support == Bucket(Roles(heroes), Support)
  {
    ghost var roles := Roles(heroes);
    front, damage, support := [], [], [];
    var i := 0;
    while i < |heroes|
      invariant 0 <= i <= |heroes|
      invariant front == Bucket(roles[..i], Front)
      invariant damage == Bucket(roles[..i], Damage)
      invariant support == Bucket(roles[..i], Support)
    {
      BucketStep(roles, i, Front);
      BucketStep(roles, i, Damage);
      BucketStep(roles, i, Support);
      var role := Classify(heroes[i]);
      assert role == roles[i];
      if role == Front {
        front := front + [i];
      } else if role == Support {
        support := support + [i];
      } else {
        damage := damage + [i];
      }
      i := i + 1;
    }
    assert roles[..i] == roles;
  }

  // ---------------------------------------------------------------- the team

  /** The non-empty groups among the three, in the order they are picked from. */
  function PickOrder(front: seq<nat>, damage: seq<nat>, support: seq<nat>): (picked: seq<Role>)
    ensures |picked| <= TeamSize
    ensures (Front in picked <==> front != []) && (Damage in picked <==> damage != [])
            && (Support in picked <==> support != [])
  {
    (if front != [] then [Front] else []) + (if damage != [] then [Damage] else [])
    + (if support != [] then [Support] else [])
  }

  /** The groups that have heroes, in the order they are picked from. */
  function PickedRoles(roles: seq<Role>): (picked: seq<Role>)
    ensures |picked| <= TeamSize
    ensures forall r :: r in picked <==> Bucket(roles, r) != []
  {
    var front, damage, support := Bucket(roles, Front), Bucket(roles, Damage), Bucket(roles, Support);
    assert forall r :: Bucket(roles, r) == (match r case Front => front case Damage => damage case Support => support);
    PickOrder(Bucket(roles, Front), Bucket(roles, Damage), Bucket(roles, Support))
  }

  /** The positions are distinct positions of a list of length `n`. */
  predicate DistinctWithin(team: seq<nat>, n: nat) {
    && (forall k :: 0 <= k < |team| ==> team[k] < n)
    && (forall p, q :: 0 <= p < q < |team| ==> team[p] != team[q])
  }

  /** The team's first members are one hero from each non-empty group, in the
      order front line, damage, support. */
  predicate SeededBy(roles: seq<Role>, team: seq<nat>) {
    && |PickedRoles(roles)| <= |team|
    && (forall k :: 0 <= k < |PickedRoles(roles)| ==> team[k] < |roles| && roles[team[k]] == PickedRoles(roles)[k])
  }

  /** A team as the command builds it: three distinct heroes of the list, the
      first of them picked from each non-empty group. */
  predicate TeamShape(roles: seq<Role>, team: seq<nat>) {
    |team| == TeamSize && DistinctWithin(team, |roles|) && SeededBy(roles, team)
  }

  /** While the team has fewer than three heroes, a list of three or more has a
      hero not yet in it. */
  lemma FreeIndex(team: seq<nat>, n: nat)
    requires n >= TeamSize && |team| < TeamSize
    ensures exists c :: 0 <= c < n && c !in team
  {
    if 0 in team && 1 in team {
      assert |team| == 2;
      assert team[0] != 2 && team[1] != 2;
      assert 2 !in team;
    }
  }

  /** `if (group.length > 0) team.push(pickRandom(group))`: the hero picked from
      a group, as a list of at most one; any member may be drawn. */
  method PickOne(group: seq<nat>) returns (picked: seq<nat>)
    ensures group == [] ==> picked == []
    ensures group != [] ==> |picked| == 1 && picked[0] in group
  {
    picked := [];
    if |group| > 0 {
      var k :| 0 <= k < |group|;
      picked := [group[k]];
    }
  }

  /** One pick from each non-empty group, in order, seeds the team. */
  lemma SeedFromPicks(roles: seq<Role>, picked: seq<Role>, a: seq<nat>, b: seq<nat>, c: seq<nat>)
    requires |a| <= 1 && |b| <= 1 && |c| <= 1
    requires picked == (if a != [] then [Front] else []) + (if b != [] then [Damage] else [])
                       + (if c != [] then [Support] else [])
    requires a != [] ==> a[0] < |roles| && roles[a[0]] == Front
    requires b != [] ==> b[0] < |roles| && roles[b[0]] == Damage
    requires c != [] ==> c[0] < |roles| && roles[c[0]] == Support
    ensures |a + b + c| == |picked|
    ensures DistinctWithin(a + b + c, |roles|)
    ensures forall k :: 0 <= k < |picked| ==> (a + b + c)[k] < |roles| && roles[(a + b + c)[k]] == picked[k]
  {
    var team := a + b + c;
    forall k | 0 <= k < |team| ensures team[k] < |roles| && roles[team[k]] == picked[k] {
      if k < |a| {
        assert team[k] == a[0];
      } else if k < |a| + |b| {
        assert team[k] == b[0];
      } else {
        assert team[k] == c[0];
      }
    }
  }

  /** The three picks, front line first. */
  method PickFromGroups(front: seq<nat>, damage: seq<nat>, support: seq<nat>, ghost roles: seq<Role>)
    returns (team: seq<nat>)
    requires forall x :: x in front ==> x < |roles| && roles[x] == Front
    requires forall x :: x in damage ==> x < |roles| && roles[x] == Damage
    requires forall x :: x in support ==> x < |roles| && roles[x] == Support
    ensures |team| == |PickOrder(front, damage, support)|
    ensures DistinctWithin(team, |roles|)
    ensures forall k :: 0 <= k < |team| ==> roles[team[k]] == PickOrder(front, damage, support)[k]
  {
    var a := PickOne(front);
    var b := PickOne(damage);
    var c := PickOne(support);
    SeedFromPicks(roles, PickOrder(front, damage, support), a, b, c);
    team := a + b + c;
  }

  /** `while (team.length < 3)`: a candidate from the whole list joins when it is
      not yet in the team; the loop is modelled by its successful draws, each any
      hero not yet chosen. */
  method FillTeam(seed: seq<nat>, n: nat) returns (team: seq<nat>)
    requires n >= TeamSize && |seed| <= TeamSize && DistinctWithin(seed, n)
    ensures |team| == TeamSize && DistinctWithin(team, n)
    ensures team[..|seed|] == seed
  {
    team := seed;
    while |team| < TeamSize
      invariant |seed| <= |team| <= TeamSize
      invariant DistinctWithin(team, n)
      invariant team[..|seed|] == seed
      decreases TeamSize - |team|
    {
      FreeIndex(team, n);
      var c :| 0 <= c < n && c !in team;
      team := team + [c];
    }
  }

  /** The picks and the fill loop. */
  method AssembleTeam(heroes: seq<Hero>) returns (team: seq<nat>)
    requires |heroes| >= TeamSize
    ensures TeamShape(Roles(heroes), team)
  {
    var front, damage, support := Partition(heroes);
    ghost var roles := Roles(heroes);
    var seed := PickFromGroups(front, damage, support, roles);
    assert PickedRoles(roles) == PickOrder(front, damage, support);
    team := FillTeam(seed, |heroes|);
    assert forall k :: 0 <= k < |seed| ==> team[k] == seed[k] by {
      forall k | 0 <= k < |seed| ensures team[k] == seed[k] {
        assert team[..|seed|][k] == team[k];
      }
    }
  }

  /** Every group that has a hero is represented in the team. */
  lemma {:induction false} TeamCoversGroups(heroes: seq<Hero>, team: seq<nat>, r: Role)
    requires TeamShape(Roles(heroes), team)
    requires Bucket(Roles(heroes), r) != []
    ensures exists k :: 0 <= k < |team| && Classify(heroes[team[k]]) == r
  {
    var k := SeatOfGroup(Roles(heroes), team, r);
    assert Classify(heroes[team[k]]) == Roles(heroes)[team[k]];
  }

  /** The slot of the team seeded from group `r`. */
  lemma SeatOfGroup(roles: seq<Role>, team: seq<nat>, r: Role) returns (k: nat)
    requires TeamShape(roles, team) && Bucket(roles, r) != []
    ensures k < |team| && team[k] < |roles| && roles[team[k]] == r
  {
    var picked := PickedRoles(roles);
    assert r in picked;
    k :| 0 <= k < |picked| && picked[k] == r;
  }

  // ---------------------------------------------------------------- the reply

  /** The field for the hero in slot `i` (0-based). */
  function SlotFor(h: Hero, i: nat): (s: Slot)
    ensures s.number == i + 1
    ensures Truthy(h.name) ==> s.name == ToStr(h.name)
    ensures !Truthy(h.name) ==> s.name == "Hero " + NatToString(i + 1)
    ensures Truthy(h.role) ==> s.role == ToStr(h.role)
    ensures !Truthy(h.role) && Truthy(h.heroClass) ==> s.role == ToStr(h.heroClass)
    ensures !Truthy(h.role) && !Truthy(h.heroClass) ==> s.role == UnknownRole
  {
    Slot(i + 1,
         if Truthy(h.name) then ToStr(h.name) else "Hero " + NatToString(i + 1),
         ToStr(if Truthy(h.role) then h.role else if Truthy(h.heroClass) then h.heroClass else Str(UnknownRole)))
  }

  /** `team.forEach((h, i) => embed.addFields(...))`. */
  method DescribeTeam(heroes: seq<Hero>, team: seq<nat>) returns (slots: seq<Slot>)
    requires forall k :: 0 <= k < |team| ==> team[k] < |heroes|
    ensures |slots| == |team|
    ensures forall i :: 0 <= i < |team| ==> slots[i] == SlotFor(heroes[team[i]], i)
  {
    slots := [];
    var i := 0;
    while i < |team|
      invariant 0 <= i <= |team|
      invariant |slots| == i
      invariant forall k :: 0 <= k < i ==> slots[k] == SlotFor(heroes[team[k]], k)
    {
      slots := slots + [SlotFor(heroes[team[i]], i)];
      i := i + 1;
    }
  }

  /** `execute`: a failed fetch and a short or non-array answer each get their
      own reply; otherwise the team is built and described. */
  method SuggestTeam(fetch: HeroFetch) returns (reply: TeamReply)
    ensures reply == CouldNotFetch <==> fetch.FetchError?
    ensures reply == NotEnoughHeroes <==> fetch.NotAnArray? || (fetch.HeroArray? && |fetch.heroes| < TeamSize)
    ensures reply.Suggested? ==> fetch.HeroArray? && TeamShape(Roles(fetch.heroes), reply.team)
    ensures reply.Suggested? ==> |reply.slots| == TeamSize
    ensures reply.Suggested? ==> forall i :: 0 <= i < TeamSize ==>
              reply.slots[i] == SlotFor(fetch.heroes[reply.team[i]], i)
  {
    if fetch.FetchError? {
      return CouldNotFetch;
    }
    if fetch.NotAnArray? || |fetch.heroes| < TeamSize {
      return NotEnoughHeroes;
    }
    var team := AssembleTeam(fetch.heroes);
    var slots := DescribeTeam(fetch.heroes, team);
    reply := Suggested(team, slots);
  }
}
