/** The eight position frames of libraries/support/convertlib.cpp, the tree of conversions between
    them, and the value each frame gets when one of them is the newest. */
module FrameTree {
  datatype Frame = Icrf | Eci | Sci | Geoc | Selc | Selg | Geos | Geod

  /** A double that holds a time, or an infinity or a NaN. */
  datatype Time = NotFinite | Finite(t: real)

  /** The numbers of a state vector. */
  type Components = seq<real>

  datatype Position = Position(pass: nat, utc: Time, val: Components)

  datatype Body = Earth | Moon

  /** What `pos_extra` keeps for the last time it was called with, and the closest body. */
  datatype Extra = Extra(utc: Time, frames: Components, closest: Body)

  datatype Positions = Positions(
    icrf: Position, eci: Position, sci: Position, geoc: Position,
    selc: Position, selg: Position, geos: Position, geod: Position)
  {
    function At(f: Frame): Position {
      match f
      case Icrf => icrf
      case Eci => eci
      case Sci => sci
      case Geoc => geoc
      case Selc => selc
      case Selg => selg
      case Geos => geos
      case Geod => geod
    }

    function With(f: Frame, p: Position): (r: Positions)
      ensures r.At(f) == p && forall g: Frame | g != f :: r.At(g) == At(g)
      ensures p == At(f) ==> r == this
    {
      match f
      case Icrf => this.(icrf := p)
      case Eci => this.(eci := p)
      case Sci => this.(sci := p)
      case Geoc => this.(geoc := p)
      case Selc => this.(selc := p)
      case Selg => this.(selg := p)
      case Geos => this.(geos := p)
      case Geod => this.(geod := p)
    }
  }

  /** The ephemerides and the arithmetic of the conversions: a conversion may keep part of the
      destination's old components. */
  datatype World = World(
    tt: real -> real,
    frames: real -> Components,
    convert: (Frame, Frame, Components, Components, Components) -> Components,
    closest: (Components, Components) -> Body)

  // ----- The tree -----

  predicate Internal(f: Frame) { f in {Icrf, Eci, Sci, Geoc, Selc} }

  /** The frame one step nearer to the barycentre. */
  function Up(f: Frame): Frame {
    match f
    case Icrf => Icrf
    case Eci => Icrf
    case Sci => Icrf
    case Geoc => Eci
    case Selc => Sci
    case Selg => Selc
    case Geos => Geoc
    case Geod => Geoc
  }

  /** There is a conversion from f to g. */
  predicate Adjacent(f: Frame, g: Frame) { f != g && (Up(f) == g || Up(g) == f) }

  function Depth(f: Frame): nat {
    match f
    case Icrf => 0
    case Eci => 1
    case Sci => 1
    case Geoc => 2
    case Selc => 2
    case Selg => 3
    case Geos => 3
    case Geod => 3
  }

  /** f lies on the way from g to the barycentre. */
  predicate Above(f: Frame, g: Frame)
    decreases Depth(g)
  {
    f == g || (g != Icrf && Above(f, Up(g)))
  }

  /** The next frame on the way from f to g. */
  function Next(f: Frame, g: Frame): (r: Frame)
    requires f != g
    ensures Adjacent(f, r)
    decreases Depth(g)
  {
    if !Above(f, g) then Up(f) else if Up(g) == f then g else Next(f, Up(g))
  }

  lemma {:induction false} NextIsDeeper(f: Frame, g: Frame)
    requires f != g && Above(f, g)
    ensures Above(Next(f, g), g) && Depth(Next(f, g)) == Depth(f) + 1 && Depth(Next(f, g)) <= Depth(g)
    decreases Depth(g)
  {
    if Up(g) != f {
      NextIsDeeper(f, Up(g));
    }
  }

  /** The number of conversions from f to g. */
  function Distance(f: Frame, g: Frame): nat
    decreases Depth(f)
  {
    if f == g then 0
    else if !Above(f, g) then 1 + Distance(Up(f), g)
    else if Depth(g) > Depth(f) then Depth(g) - Depth(f) else 0
  }

  lemma NextIsNearer(f: Frame, g: Frame)
    requires f != g
    ensures Distance(Next(f, g), g) < Distance(f, g)
  {
    if Above(f, g) {
      NextIsDeeper(f, g);
    }
  }

  /** What lies below a neighbour is reached through it. */
  lemma {:induction false} ThroughNeighbour(f: Frame, g: Frame, root: Frame)
    requires Up(g) == f && g != f && Above(g, root)
    ensures f != root && Above(f, root) && Next(f, root) == g
    decreases Depth(root)
  {
    if g != root {
      ThroughNeighbour(f, g, Up(root));
    }
  }

  /** Of two neighbours, one is the next on the other's way to any third frame. */
  lemma EdgeLeadsToRoot(f: Frame, g: Frame, root: Frame)
    requires Adjacent(f, g) && g != root && Next(g, root) != f
    ensures f != root && Next(f, root) == g
  {
    if Up(g) == f {
      ThroughNeighbour(f, g, root);
    } else if Above(f, root) {
      ThroughNeighbour(g, f, root);
    }
  }
}
