/** The tiny scripting model: game objects bound to names, conditions and
    actions over them, and a flat instruction list whose loops are marked
    by opening and closing instructions. */
module Script {
  import opened Base

  /** The two kinds of game object; only a warrior can move. */
  datatype GameObject = Warrior(position: Vec2, speed: real) | Mark(position: Vec2)

  type Vars = map<string, GameObject>

  function NewWarrior(): (w: GameObject)
    ensures w.Warrior? && w.position == Zero2 && w.speed == 0.0
  {
    Warrior(Zero2, 0.0)
  }

  function NewMark(): (m: GameObject)
    ensures m.Mark? && m.position == Zero2
  {
    Mark(Zero2)
  }

  /** `as_movable` answers `Some` exactly for a warrior. */
  predicate IsMovable(g: GameObject) {
    g.Warrior?
  }

  /** `Warrior::move_to`: a step of length `speed` towards `dest`, or onto
      `dest` when it is closer than that.  `unit` stands for `v / |v|`. */
  function MoveTo(g: GameObject, dest: Vec2, unit: Vec2 -> Vec2): (r: GameObject)
    requires g.Warrior?
    ensures r.Warrior? && r.speed == g.speed
    ensures ShorterThan2(Sub2(dest, g.position), g.speed) ==> r.position == dest
    ensures !ShorterThan2(Sub2(dest, g.position), g.speed) ==>
      Sub2(r.position, g.position) == Scale2(g.speed, unit(Sub2(dest, g.position)))
  {
    var v := Sub2(dest, g.position);
    if ShorterThan2(v, g.speed) then g.(position := dest)
    else
      var p := Add2(g.position, Scale2(g.speed, unit(v)));
      assert Sub2(p, g.position) == Scale2(g.speed, unit(v));
      g.(position := p)
  }

  // ---------------------------------------------------------------------
  // Conditions
  // ---------------------------------------------------------------------

  /** Conditions keep state (`Iterations` counts down), so evaluating one
      yields its answer and its next state. */
  datatype Condition =
    | Iterations(n: nat)
    | Not(inner: Condition)
    | IsCloseEnough(a: string, b: string, dist: real)

  /** `is_met`.  `None` means a name the condition needs is unbound. */
  function IsMet(c: Condition, vars: Vars): (r: (Option<bool>, Condition))
    ensures c.Iterations? ==> r == (Some(c.n > 0), Iterations(if c.n > 0 then c.n - 1 else 0))
    ensures c.Not? ==> r.1.Not? && r.0 == match IsMet(c.inner, vars).0
      case Some(b) => Some(!b)
      case None => None
    ensures c.IsCloseEnough? ==> r.1 == c && (r.0.None? <==> c.a !in vars || c.b !in vars)
    ensures c.IsCloseEnough? && r.0.Some? ==>
      r.0.value == ShorterThan2(Sub2(vars[c.a].position, vars[c.b].position), c.dist)
  {
    match c
    case Iterations(n) => if n > 0 then (Some(true), Iterations(n - 1)) else (Some(false), c)
    case Not(inner) =>
      var (x, inner') := IsMet(inner, vars);
      (if x.Some? then Some(!x.value) else None, Not(inner'))
    case IsCloseEnough(a, b, dist) =>
      if a !in vars || b !in vars then (None, c)
      else (Some(ShorterThan2(Sub2(vars[a].position, vars[b].position), dist)), c)
  }

  /** The answers of `k` evaluations in a row. */
  function Answers(c: Condition, vars: Vars, k: nat): (r: seq<Option<bool>>)
    ensures |r| == k
    decreases k
  {
    if k == 0 then [] else var (x, c') := IsMet(c, vars); [x] + Answers(c', vars, k - 1)
  }

  /** `Iterations(n)` holds exactly `n` times and then never again; the
      counter never goes below zero. */
  lemma {:induction false} IterationsAnswers(n: nat, vars: Vars, k: nat)
    ensures forall j :: 0 <= j < k ==> Answers(Iterations(n), vars, k)[j] == Some(j < n)
    decreases k
  {
    if k > 0 {
      var n' := if n > 0 then n - 1 else 0;
      IterationsAnswers(n', vars, k - 1);
      var r := Answers(Iterations(n), vars, k);
      assert r == [Some(n > 0)] + Answers(Iterations(n'), vars, k - 1);
      forall j | 0 <= j < k
        ensures r[j] == Some(j < n)
      {
        if j > 0 {
          assert r[j] == Answers(Iterations(n'), vars, k - 1)[j - 1];
        }
      }
    }
  }

  /** Negating twice gives back the inner condition's answer. */
  lemma NotNot(c: Condition, vars: Vars)
    ensures IsMet(Not(Not(c)), vars).0 == IsMet(c, vars).0
  {
  }

  // ---------------------------------------------------------------------
  // Actions
  // ---------------------------------------------------------------------

  datatype Action = MoveAtoB(a: string, b: string)

  /** `MoveAtoB::act`: moves `a` towards `b` when both are bound and `a`
      can move.  It answers `None` in every case. */
  function Act(act: Action, vars: Vars, unit: Vec2 -> Vec2): (r: (Option<()>, Vars))
    ensures r.0.None?
    ensures r.1.Keys == vars.Keys
    ensures forall n :: n in vars && n != act.a ==> r.1[n] == vars[n]
    ensures act.b !in vars || act.a !in vars || !IsMovable(vars[act.a]) ==> r.1 == vars
    ensures act.b in vars && act.a in vars && IsMovable(vars[act.a]) ==>
      r.1[act.a] == MoveTo(vars[act.a], vars[act.b].position, unit)
  {
    if act.b !in vars then (None, vars)
    else
      var p := vars[act.b].position;
      if act.a !in vars then (None, vars)
      else if IsMovable(vars[act.a]) then (None, vars[act.a := MoveTo(vars[act.a], p, unit)])
      else (None, vars)
  }

  /** A warrior within one step of its target lands on it. */
  lemma MoveArrives(vars: Vars, a: string, b: string, unit: Vec2 -> Vec2)
    requires a in vars && b in vars && vars[a].Warrior?
    requires ShorterThan2(Sub2(vars[b].position, vars[a].position), vars[a].speed)
    ensures Act(MoveAtoB(a, b), vars, unit).1[a].position == vars[b].position
  {
  }

  // ---------------------------------------------------------------------
  // Instructions and scripts
  // ---------------------------------------------------------------------

  datatype Instruction =
    | WhileLoop(condition: Condition)
    | EndWhileLoop
    | IfCFlow(condition: Condition)
    | EndIfCFlow
    | DoAction(action: Action)

  /** `to_str`: the variant's name. */
  function ToStr(i: Instruction): (s: string)
    ensures s in {"WhileLoop", "EndWhileLoop", "IfCFlow", "EndIfCFlow", "Action"}
  {
    match i
    case WhileLoop(_) => "WhileLoop"
    case IfCFlow(_) => "IfCFlow"
    case DoAction(_) => "Action"
    case EndWhileLoop => "EndWhileLoop"
    case EndIfCFlow => "EndIfCFlow"
  }

  /** Two instructions have the same name iff they are the same variant. */
  lemma ToStrDistinguishesVariants(i: Instruction, j: Instruction)
    ensures ToStr(i) == ToStr(j) <==>
      (i.WhileLoop? && j.WhileLoop?) || (i.EndWhileLoop? && j.EndWhileLoop?) || (i.IfCFlow? && j.IfCFlow?)
      || (i.EndIfCFlow? && j.EndIfCFlow?) || (i.DoAction? && j.DoAction?)
  {
    assert "WhileLoop"[0] == 'W' && "EndWhileLoop"[0] == 'E' && "IfCFlow"[0] == 'I';
    assert "EndIfCFlow"[3] == 'I' && "EndWhileLoop"[3] == 'W' && "Action"[0] == 'A';
  }

  datatype Script = Script(variables: Vars, instructions: seq<Instruction>)

  function NewScript(): (s: Script)
    ensures s.variables.Keys == {} && |s.instructions| == 0
  {
    Script(map[], [])
  }

  /** `push_instruction` appends and touches nothing else. */
  function PushInstruction(s: Script, i: Instruction): (r: Script)
    ensures r.variables == s.variables
    ensures |r.instructions| == |s.instructions| + 1
    ensures r.instructions[..|s.instructions|] == s.instructions && r.instructions[|s.instructions|] == i
  {
    s.(instructions := s.instructions + [i])
  }

  /** `add_game_object` binds or rebinds one name. */
  function AddGameObject(s: Script, name: string, g: GameObject): (r: Script)
    ensures r.instructions == s.instructions
    ensures r.variables.Keys == s.variables.Keys + {name} && r.variables[name] == g
    ensures forall n :: n in s.variables && n != name ==> r.variables[n] == s.variables[n]
  {
    s.(variables := s.variables[name := g])
  }

  /** Loop depth after a prefix: openings minus closings. */
  function Depth(code: seq<Instruction>): int
  {
    if |code| == 0 then 0
    else Depth(code[..|code| - 1]) + (match code[|code| - 1] case WhileLoop(_) => 1 case EndWhileLoop => -1 case _ => 0)
  }

  /** No prefix closes more loops than it opens, and all loops are closed. */
  predicate Balanced(code: seq<Instruction>) {
    (forall k :: 0 <= k <= |code| ==> Depth(code[..k]) >= 0) && Depth(code) == 0
  }

  /** A single left-to-right pass with a depth counter. */
  function Scan(code: seq<Instruction>, d: int): bool
    decreases |code|
  {
    if |code| == 0 then d == 0
    else match code[0]
      case WhileLoop(_) => Scan(code[1..], d + 1)
      case EndWhileLoop => d > 0 && Scan(code[1..], d - 1)
      case _ => Scan(code[1..], d)
  }

  /** The pass accepts exactly the balanced lists. */
  lemma {:induction false} ScanBalanced(pre: seq<Instruction>, code: seq<Instruction>)
    requires forall k :: 0 <= k <= |pre| ==> Depth(pre[..k]) >= 0
    ensures Scan(code, Depth(pre)) <==> Balanced(pre + code)
    decreases |code|
  {
    var all := pre + code;
    if |code| == 0 {
      assert all == pre;
    } else {
      var pre' := pre + [code[0]];
      assert pre'[..|pre'| - 1] == pre;
      assert all == pre' + code[1..];
      assert pre'[..|pre|] == pre && pre'[|pre|] == code[0];
      assert pre[..|pre|] == pre;
      if Depth(pre') >= 0 {
        forall k | 0 <= k <= |pre'|
          ensures Depth(pre'[..k]) >= 0
        {
          if k <= |pre| {
            assert pre'[..k] == pre[..k];
          } else {
            assert pre'[..k] == pre';
          }
        }
        ScanBalanced(pre', code[1..]);
      } else {
        assert code[0].EndWhileLoop? && Depth(pre) == 0;
        assert !Scan(code, Depth(pre));
        assert all[..|pre'|] == pre';
        assert !Balanced(all);
      }
    }
  }

  lemma ScanDecidesBalanced(code: seq<Instruction>)
    ensures Scan(code, 0) <==> Balanced(code)
  {
    assert [] + code == code;
    ScanBalanced([], code);
  }

  /** `init_script2`: a warrior at (0, -1) with speed 1 and two marks,
      then thirteen instructions with two nested loops and one empty one.
      Every action walks the warrior towards `mark1`. */
  function InitScript2(): (s: Script)
    ensures s.variables.Keys == {"warrior", "mark1", "mark2"}
    ensures s.variables["warrior"] == Warrior(Vec2(0.0, -1.0), 1.0)
    ensures s.instructions == Script2Code() && |s.instructions| == 13
  {
    var w := NewWarrior();
    var warrior := w.(position := Vec2(0.0, -1.0), speed := 1.0);
    var mark1 := NewMark().(position := Vec2(1.0, 1.0));
    var mark2 := NewMark().(position := Vec2(-1.0, 1.0));
    var s := AddGameObject(AddGameObject(AddGameObject(NewScript(), "warrior", warrior), "mark1", mark1), "mark2", mark2);
    s.(instructions := Script2Code())
  }

  /** The instruction list of `init_script2`. */
  function Script2Code(): seq<Instruction> {
    var step := DoAction(MoveAtoB("warrior", "mark1"));
    var loop := WhileLoop(Iterations(5));
    [step, loop, step, step, loop, step, step, EndWhileLoop, EndWhileLoop, loop, EndWhileLoop, step, step]
  }

  /** The loops of `init_script2` are properly nested. */
  lemma InitScript2Balanced()
    ensures Balanced(InitScript2().instructions)
  {
    var code := Script2Code();
    ScanDecidesBalanced(code);
    assert Scan(code[13..], 0);
    assert Scan(code[12..], 0);
    assert Scan(code[11..], 0);
    assert Scan(code[10..], 1);
    assert Scan(code[9..], 0);
    assert Scan(code[8..], 1);
    assert Scan(code[7..], 2);
    assert Scan(code[6..], 2);
    assert Scan(code[5..], 2);
    assert Scan(code[4..], 1);
    assert Scan(code[3..], 1);
    assert Scan(code[2..], 1);
    assert Scan(code[1..], 0);
    assert Scan(code[0..], 0);
    assert code[0..] == code;
  }
}
