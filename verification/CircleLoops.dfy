/** The loop that all circle routines of both drivers share. */
module CircleLoops {
  import opened CTypes
  import opened Circles

  /** The loop's variables in column x, which is column 0 or was entered from a
      column left of the diagonal. */
  ghost predicate CircleLoop(r: nat, x: int, y: int, f: int, ddFx: int, ddFy: int) {
    (y, f, ddFx, ddFy) == LoopAt(r, x) && Entered(r, x)
  }

  ghost function LoopAt(r: nat, x: int): (int, int, int, int) {
    var (y, f) := OctantWalk(r, x);
    (y, f, 2 * x + 1, -2 * y)
  }

  ghost predicate Entered(r: nat, x: int) {
    x == 0 || (0 < x && x - 1 < OctantWalk(r, x - 1).0)
  }

  /** The body of the circle loop, up to the drawing: all 16-bit stores fit. */
  method Turn(ghost r: nat, x: int16, y: int16, f: int16, ddFx: int16, ddFy: int16)
    returns (x': int16, y': int16, f': int16, ddFx': int16, ddFy': int16)
    requires CircleLoop(r, x, y, f, ddFx, ddFy) && x < y && r <= 0x4000
    ensures CircleLoop(r, x', y', f', ddFx', ddFy')
    ensures x' == x + 1 && y' == (if f >= 0 then y - 1 else y) && f' == NextDecision(x, y, f)
    ensures 0 <= y' <= 0x4000 && x' <= 0x4000
  {
    TurnFits(r, x, y, f);
    x', y', f', ddFx', ddFy' := x, y, f, ddFx, ddFy;
    if f' >= 0 {
      y' := y' - 1;
      ddFy' := ddFy' + 2;
      f' := f' + ddFy';
    }
    x' := x' + 1;
    ddFx' := ddFx' + 2;
    f' := f' + ddFx';
  }

  lemma TurnFits(r: nat, x: nat, y: int, f: int)
    requires OctantWalk(r, x) == (y, f) && (x == 0 || x - 1 < OctantWalk(r, x - 1).0) && x < y && r <= 0x4000
    ensures -2 * y <= f <= 2 * x + 1 && y <= r && x + 1 <= 0x3fff
    ensures NextDecision(x, y, f) <= 2 * x + 3
  {
    WalkInOctant(r, x);
    WalkInOctant(r, x + 1);
    DecisionBound(r, x, y, f);
    DecisionBound(r, x + 1, OctantWalk(r, x + 1).0, NextDecision(x, y, f));
  }
}
