/**
  The processes of one interoperability test (interoperability_report.py): any number of
  publisher and subscriber drivers that synchronise through one event each, write their
  return code into a shared list, and are launched and joined by a parent.

  What `expect` finds, and the verdict of the unseen check function, are choices of the
  environment; every scripted wait ends, because the drivers give each one a timeout.
 */
module Harness {
  import opened Bytes
  import opened ReturnCodes
  import opened Sequences

  const MAX_SAMPLES_SAVED: nat := 500

  datatype Role = Publisher | Subscriber

  // ----- index bookkeeping of `run_test` -----

  predicate HasFlag(parameters: string, flag: string) {
    || Contains(parameters, flag + " ")
    || (|flag| <= |parameters| && parameters[|parameters| - |flag|..] == flag)
  }

  function RoleOf(parameters: string): Option<Role> {
    if HasFlag(parameters, "-P") then Some(Publisher)
    else if HasFlag(parameters, "-S") then Some(Subscriber)
    else None
  }

  /** The flag stands in the parameters, in front of a blank or at their end. */
  ghost predicate Stands(parameters: string, flag: string) {
    exists i {:trigger FlagAt(parameters, flag, i)} :: FlagAt(parameters, flag, i)
  }

  predicate FlagAt(parameters: string, flag: string, i: int) {
    && 0 <= i <= i + |flag| <= |parameters| && parameters[i..i + |flag|] == flag
    && (i + |flag| == |parameters| || parameters[i + |flag|] == ' ')
  }

  lemma FlagsAreFound(parameters: string, flag: string)
    ensures HasFlag(parameters, flag) <==> Stands(parameters, flag)
  {
    if Contains(parameters, flag + " ") {
      var i :| 0 <= i <= |parameters| && PartAt(parameters, flag + " ", i);
      var part := flag + " ";
      assert parameters[i..i + |part|] == part && part[|flag|] == ' ' && part[..|flag|] == flag;
      assert parameters[i + |flag|] == part[|flag|];
      assert parameters[i..i + |flag|] == parameters[i..i + |part|][..|flag|];
      assert FlagAt(parameters, flag, i);
    } else if HasFlag(parameters, flag) {
      assert FlagAt(parameters, flag, |parameters| - |flag|);
    }
    if Stands(parameters, flag) {
      var i :| FlagAt(parameters, flag, i);
      if i + |flag| == |parameters| {
        assert parameters[i..] == flag;
      } else {
        assert parameters[i..i + |flag| + 1] == flag + " ";
        assert PartAt(parameters, flag + " ", i);
      }
    }
  }

  /** Publishers are marked by -P, subscribers by -S alone, and saving of samples by -w. */
  ghost predicate ReadOff(parameters: string, role: Role, saves: bool) {
    && (role == Publisher <==> Stands(parameters, "-P"))
    && (role == Subscriber ==> Stands(parameters, "-S"))
    && (saves <==> Stands(parameters, "-w"))
  }

  /** What the harness reads off a parameter string: the role, and whether samples are saved (`-w`). */
  datatype Entity = Entity(role: Option<Role>, saves: bool)

  function Entities(parameters: seq<string>): (entities: seq<Entity>)
    ensures |entities| == |parameters|
  {
    seq(|parameters|, i requires 0 <= i < |parameters| => Entity(RoleOf(parameters[i]), HasFlag(parameters[i], "-w")))
  }

  /** How many of the first `n` entities have this role. */
  function Count(roles: seq<Role>, role: Role, n: nat): nat
    requires n <= |roles|
  {
    if n == 0 then 0
    else Count(roles, role, n - 1) + if roles[n - 1] == role then 1 else 0
  }

  /** `number[i]` selects entity i's event in the list of its role. */
  datatype Config = Config(roles: seq<Role>, number: seq<nat>, saves: seq<bool>, pubs: nat, subs: nat)

  function Events(c: Config, role: Role): nat {
    if role == Publisher then c.pubs else c.subs
  }

  /** The entities of a role and the events of that role are in one-to-one correspondence. */
  ghost predicate WellFormed(c: Config) {
    && |c.number| == |c.saves| == |c.roles|
    && (forall i :: 0 <= i < |c.roles| ==> c.number[i] < Events(c, c.roles[i]))
    && (forall i, j :: 0 <= i < j < |c.roles| && c.roles[i] == c.roles[j] ==> c.number[i] != c.number[j])
    && (forall role, k :: 0 <= k < Events(c, role) ==> HasOwner(c, role, k))
  }

  predicate Owns(c: Config, i: int, role: Role, k: int) {
    0 <= i < |c.roles| && i < |c.number| && c.roles[i] == role && c.number[i] == k
  }

  ghost predicate HasOwner(c: Config, role: Role, k: int) {
    exists i :: Owns(c, i, role, k)
  }

  /** Entity i of `c` is `entities[i]`, numbered by the entities of its role before it. */
  ghost predicate Describes(c: Config, entities: seq<Entity>) {
    && |c.roles| == |c.number| == |c.saves| == |entities|
    && (forall role :: Events(c, role) == Count(c.roles, role, |c.roles|))
    && forall i :: 0 <= i < |entities| ==> DescribesAt(c, i, entities[i])
  }

  function Extend(c: Config, role: Role, saves: bool): Config {
    Config(c.roles + [role], c.number + [Events(c, role)], c.saves + [saves],
           if role == Publisher then c.pubs + 1 else c.pubs,
           if role == Subscriber then c.subs + 1 else c.subs)
  }

  lemma ExtendKeepsWellFormed(c: Config, role: Role, saves: bool)
    requires WellFormed(c)
    ensures WellFormed(Extend(c, role, saves))
  {
    var after := Extend(c, role, saves);
    forall which, k | 0 <= k < Events(after, which) ensures HasOwner(after, which, k) {
      if k < Events(c, which) {
        assert HasOwner(c, which, k);
        var j :| Owns(c, j, which, k);
        assert Owns(after, j, which, k);
      } else {
        assert Owns(after, |c.roles|, which, k);
      }
    }
  }

  ghost predicate DescribesAt(c: Config, i: nat, entity: Entity)
    requires i < |c.roles| == |c.number| == |c.saves|
  {
    entity == Entity(Some(c.roles[i]), c.saves[i]) && c.number[i] == Count(c.roles, c.roles[i], i)
  }

  lemma ExtendDescribes(c: Config, entities: seq<Entity>, role: Role, saves: bool)
    requires Describes(c, entities)
    ensures Describes(Extend(c, role, saves), entities + [Entity(Some(role), saves)])
  {
    var after := Extend(c, role, saves);
    var all := entities + [Entity(Some(role), saves)];
    forall i | 0 <= i < |all| ensures DescribesAt(after, i, all[i]) {
      CountIgnoresRest(c.roles, after.roles, after.roles[i], i);
      if i < |entities| {
        assert DescribesAt(c, i, entities[i]);
      }
    }
    forall which ensures Events(after, which) == Count(after.roles, which, |after.roles|) {
      CountIgnoresRest(c.roles, c.roles + [role], which, |c.roles|);
    }
  }

  /** `run_test` numbers the entities in list order; it raises if some entity has neither flag. */
  method SetUp(parameters: seq<string>) returns (r: Option<Config>)
    ensures r.None? <==>
            exists i :: 0 <= i < |parameters| && !Stands(parameters[i], "-P") && !Stands(parameters[i], "-S")
    ensures r.Some? ==>
              && WellFormed(r.value) && |r.value.roles| == |parameters|
              && (forall i :: 0 <= i < |parameters| ==> ReadOff(parameters[i], r.value.roles[i], r.value.saves[i]))
              && (forall i :: 0 <= i < |parameters| ==>
                    r.value.number[i] == Count(r.value.roles, r.value.roles[i], i))
  {
    var entities := Entities(parameters);
    forall i | 0 <= i < |parameters| ensures EntityIsRead(parameters[i], entities[i]) {
      FlagsAreFound(parameters[i], "-P");
      FlagsAreFound(parameters[i], "-S");
      FlagsAreFound(parameters[i], "-w");
    }
    var i := FirstWithoutRole(entities);
    if i < |entities| {
      assert EntityIsRead(parameters[i], entities[i]);
      return None;
    }
    forall i | 0 <= i < |parameters| ensures Stands(parameters[i], "-P") || Stands(parameters[i], "-S") {
      assert EntityIsRead(parameters[i], entities[i]) && entities[i].role.Some?;
    }
    var c := NumberAll(entities);
    assert forall i :: 0 <= i < |parameters| ==> DescribesAt(c, i, entities[i]);
    r := Some(c);
  }

  ghost predicate EntityIsRead(parameters: string, e: Entity) {
    && (e.role.None? <==> !Stands(parameters, "-P") && !Stands(parameters, "-S"))
    && (e.role.Some? ==> ReadOff(parameters, e.role.value, e.saves))
  }

  method FirstWithoutRole(entities: seq<Entity>) returns (i: nat)
    ensures i <= |entities| && (i < |entities| ==> entities[i].role.None?)
    ensures forall j :: 0 <= j < i ==> entities[j].role.Some?
  {
    i := 0;
    while i < |entities| && entities[i].role.Some?
      invariant i <= |entities| && forall j :: 0 <= j < i ==> entities[j].role.Some?
    {
      i := i + 1;
    }
  }

  method NumberAll(entities: seq<Entity>) returns (c: Config)
    requires forall i :: 0 <= i < |entities| ==> entities[i].role.Some?
    ensures WellFormed(c) && Describes(c, entities)
  {
    c := Config([], [], [], 0, 0);
    for i := 0 to |entities|
      invariant WellFormed(c) && Describes(c, entities[..i])
    {
      var role, saves := entities[i].role.value, entities[i].saves;
      ExtendKeepsWellFormed(c, role, saves);
      ExtendDescribes(c, entities[..i], role, saves);
      assert entities[..i + 1] == entities[..i] + [Entity(Some(role), saves)];
      c := Extend(c, role, saves);
    }
    assert entities[..|entities|] == entities;
  }

  lemma {:induction false} CountIgnoresRest(a: seq<Role>, b: seq<Role>, role: Role, n: nat)
    requires n <= |a| && a <= b
    ensures Count(b, role, n) == Count(a, role, n)
  {
    if n > 0 {
      CountIgnoresRest(a, b, role, n - 1);
    }
  }
}
