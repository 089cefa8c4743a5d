/**
 * Combat bookkeeping of a robot (robotWar/robotwar/core/Robot.java).  The
 * battle is reduced to what `Robot` touches: its list of robots and its list
 * of pending actions.  Moving, drawing and the per-strategy `takeTurn` are
 * not part of this model.
 */
module RobotWar {
  import opened JavaLang

  /** A pending `Shoot` action: who fires, at whom, with what strength. */
  datatype Action = Shoot(shooter: Robot, target: Robot, strength: Int32)

  class Battle {
    var robots: seq<Robot>
    var actions: seq<Action>

    constructor (robots: seq<Robot>)
      ensures this.robots == robots && actions == []
    {
      this.robots := robots;
      actions := [];
    }
  }

  /** `a` keeps some of the elements of `b`, in the order they have in `b`. */
  ghost predicate SubsequenceOf<T>(a: seq<T>, b: seq<T>)
  {
    if a == [] then true
    else if b == [] then false
    else if a[|a| - 1] == b[|b| - 1] then SubsequenceOf(a[..|a| - 1], b[..|b| - 1])
    else SubsequenceOf(a, b[..|b| - 1])
  }

  class Robot {
    var name: string
    var xPosition: int
    var yPosition: int
    var strength: Int32
    var isDead: bool

    /** A robot starts where it is put, with the strength it is given, alive. */
    constructor (name: string, xPosition: int, yPosition: int, strength: Int32)
      ensures this.name == name && this.xPosition == xPosition && this.yPosition == yPosition
      ensures this.strength == strength && !isDead
    {
      this.name := name;
      this.xPosition := xPosition;
      this.yPosition := yPosition;
      this.strength := strength;
      this.isDead := false;
    }

    /**
     * `isShot(strength)`: the argument is ignored; strength drops by exactly
     * one, except that the 32-bit `int` wraps from its least value to its
     * greatest; the robot is dead once strength is below 1.  Nothing revives it.
     */
    method IsShot(strength: Int32)
      modifies this
      ensures old(this.strength) > INT_MIN ==> this.strength == old(this.strength) - 1
      ensures old(this.strength) == INT_MIN ==> this.strength == INT_MAX
      ensures isDead == (old(isDead) || this.strength < 1)
      ensures name == old(name) && xPosition == old(xPosition) && yPosition == old(yPosition)
    {
      this.strength := Wrap32(this.strength - 1);
      if this.strength < 1 {
        this.isDead := true;
      }
    }

    /**
     * Whether `r` is visible within `distance`: another robot, alive, whose
     * Euclidean distance is strictly below `distance`.  The Java code compares
     * `(double) distance > Math.sqrt(dx*dx + dy*dy)`; over exact numbers that
     * holds exactly when `distance` is positive and dx*dx + dy*dy < distance*distance.
     */
    predicate Sees(r: Robot, distance: int)
      reads this, r
    {
      var dx := xPosition - r.xPosition;
      var dy := yPosition - r.yPosition;
      r != this && !r.isDead && distance > 0 && dx * dx + dy * dy < distance * distance
    }

    /** The robots of `robots` this robot sees, in list order. */
    function InSight(robots: seq<Robot>, distance: int): (visible: seq<Robot>)
      reads this, robots
      ensures forall v :: v in visible ==> v in robots && Sees(v, distance)
      ensures forall r :: r in robots && Sees(r, distance) ==> r in visible
      ensures SubsequenceOf(visible, robots)
    {
      if robots == [] then []
      else
        var last := robots[|robots| - 1];
        var earlier := InSight(robots[..|robots| - 1], distance);
        assert forall r :: r in robots ==> r in robots[..|robots| - 1] || r == last;
        if Sees(last, distance) then earlier + [last]
        else
          assert earlier == [] || earlier[|earlier| - 1] != last;
          earlier
    }

    /** A robot never sees itself, nor a dead robot. */
    lemma NeverSeesItselfOrTheDead(robots: seq<Robot>, distance: int)
      ensures this !in InSight(robots, distance)
      ensures forall v :: v in InSight(robots, distance) ==> !v.isDead
    {
    }

    /** `findRobotsInSight(battle, distance)`: a filter over the battle's robots, built in a loop. */
    method FindRobotsInSight(battle: Battle, distance: int) returns (visible: seq<Robot>)
      ensures visible == InSight(battle.robots, distance)
    {
      var robots := battle.robots;
      visible := [];
      var i := 0;
      while i < |robots|
        invariant 0 <= i <= |robots|
        invariant visible == InSight(robots[..i], distance)
      {
        var r := robots[i];
        if r != this && !r.isDead {
          var dx := xPosition - r.xPosition;
          var dy := yPosition - r.yPosition;
          if distance > 0 && dx * dx + dy * dy < distance * distance {
            visible := visible + [r];
          }
        }
        assert robots[..i + 1][..i] == robots[..i];
        i := i + 1;
      }
      assert robots[..i] == robots;
    }

    /**
     * `common(battle, strength)`: when some robot is within range 10, append
     * one `Shoot` at the first of them (and mark this robot dead if its own
     * strength is below 1); otherwise do nothing.
     */
    method Common(battle: Battle, strength: Int32)
      modifies battle`actions, this`isDead
      ensures var inSight := old(InSight(battle.robots, 10));
        if inSight == [] then
          battle.actions == old(battle.actions) && isDead == old(isDead)
        else
          battle.actions == old(battle.actions) + [Shoot(this, inSight[0], strength)] &&
          isDead == (old(isDead) || this.strength < 1)
    {
      var robotsInSight := FindRobotsInSight(battle, 10);
      if robotsInSight != [] {
        var target := robotsInSight[0];
        battle.actions := battle.actions + [Shoot(this, target, strength)];
        if this.strength < 1 {
          isDead := true;
        }
      }
    }
  }
}
