/**
 The player's discrete motion rules: whether thrust replaces friction this
 frame, and the wall bounce that snaps the ship back onto the screen.
 Snapping a coordinate to 0 or to a screen dimension and negating a velocity
 component are exact in IEEE arithmetic, so they are modelled over `real`.
 */
module Motion {

  datatype Vec2 = Vec2(x: real, y: real)

  /** The `Player` struct: rotation in degrees, position, velocity. */
  datatype Player = Player(rot: real, pos: Vec2, vel: Vec2)

  datatype Option<T> = None | Some(value: T)

  datatype Edge = LeftEdge | RightEdge | TopEdge | BottomEdge

  /** Thrust (instead of friction) is applied when Up or W is held and the
      movement lock is not set. */
  function ThrustApplies(upHeld: bool, wHeld: bool, lockMovement: bool): (thrust: bool)
    ensures thrust <==> (upHeld || wHeld) && !lockMovement
  {
    (upHeld && !lockMovement) || (wHeld && !lockMovement)
  }

  predicate OnScreen(p: Vec2, width: real, height: real) {
    0.0 <= p.x <= width && 0.0 <= p.y <= height
  }

  /** The edge the if/else-if chain handles: x below 0, then x beyond the
      width, then y below 0, then y beyond the height. */
  function CrossedEdge(p: Vec2, width: real, height: real): (e: Option<Edge>)
    ensures e.None? <==> OnScreen(p, width, height)
    ensures e == Some(LeftEdge) <==> p.x < 0.0
    ensures e == Some(RightEdge) <==> 0.0 <= p.x && width < p.x
    ensures e == Some(TopEdge) <==> 0.0 <= p.x <= width && p.y < 0.0
    ensures e == Some(BottomEdge) <==> 0.0 <= p.x <= width && 0.0 <= p.y && height < p.y
  {
    if p.x < 0.0 then Some(LeftEdge)
    else if p.x > width then Some(RightEdge)
    else if p.y < 0.0 then Some(TopEdge)
    else if p.y > height then Some(BottomEdge)
    else None
  }

  /** The player after the bounce, and whether a bounce happened (which sets
      the movement lock and restamps the collision time). */
  datatype Bounced = Bounced(player: Player, bounced: bool)

  /** src/main.rs lines 87-107. */
  function Bounce(pl: Player, width: real, height: real): (r: Bounced)
    ensures r.bounced <==> !OnScreen(pl.pos, width, height)
    // No edge crossed: nothing changes.
    ensures !r.bounced ==> r.player == pl
    // Rotation is never touched.
    ensures r.player.rot == pl.rot
    // Exactly one axis is handled: the other keeps its position and velocity.
    ensures (r.player.pos.x == pl.pos.x && r.player.vel.x == pl.vel.x)
         || (r.player.pos.y == pl.pos.y && r.player.vel.y == pl.vel.y)
    // The handled coordinate lands exactly on the edge and its velocity
    // component is reversed.
    ensures pl.pos.x < 0.0 ==>
      r.player.pos == Vec2(0.0, pl.pos.y) && r.player.vel == Vec2(-pl.vel.x, pl.vel.y)
    ensures 0.0 <= pl.pos.x && width < pl.pos.x ==>
      r.player.pos == Vec2(width, pl.pos.y) && r.player.vel == Vec2(-pl.vel.x, pl.vel.y)
    ensures 0.0 <= pl.pos.x <= width && pl.pos.y < 0.0 ==>
      r.player.pos == Vec2(pl.pos.x, 0.0) && r.player.vel == Vec2(pl.vel.x, -pl.vel.y)
    ensures 0.0 <= pl.pos.x <= width && 0.0 <= pl.pos.y && height < pl.pos.y ==>
      r.player.pos == Vec2(pl.pos.x, height) && r.player.vel == Vec2(pl.vel.x, -pl.vel.y)
  {
    var p := pl.pos;
    var v := pl.vel;
    match CrossedEdge(p, width, height)
    case None => Bounced(pl, false)
    case Some(LeftEdge) => Bounced(Player(pl.rot, Vec2(0.0, p.y), Vec2(-v.x, v.y)), true)
    case Some(RightEdge) => Bounced(Player(pl.rot, Vec2(width, p.y), Vec2(-v.x, v.y)), true)
    case Some(TopEdge) => Bounced(Player(pl.rot, Vec2(p.x, 0.0), Vec2(v.x, -v.y)), true)
    case Some(BottomEdge) => Bounced(Player(pl.rot, Vec2(p.x, height), Vec2(v.x, -v.y)), true)
  }

  /** A ship past a corner is off screen on both axes, and one frame's bounce
      brings back only the x axis: it is still off screen, at the same y. */
  lemma CornerNeedsTwoBounces(pl: Player, width: real, height: real)
    requires pl.pos.x < 0.0 || width < pl.pos.x
    requires pl.pos.y < 0.0 || height < pl.pos.y
    ensures var once := Bounce(pl, width, height);
      && once.bounced
      && !OnScreen(once.player.pos, width, height)
      && once.player.pos.y == pl.pos.y
      && once.player.vel.y == pl.vel.y
  {
  }

  /** On a screen of non-negative size, a second bounce (with no movement in
      between) always puts the ship on screen. */
  lemma TwoBouncesReachScreen(pl: Player, width: real, height: real)
    requires 0.0 <= width && 0.0 <= height
    ensures OnScreen(Bounce(Bounce(pl, width, height).player, width, height).player.pos, width, height)
  {
  }
}
