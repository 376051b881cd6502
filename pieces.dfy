// Pieces.java and the per-kind overrides: a mutable piece record whose kind
// selects the movement rule (isValid) and the obstruction rule (isCollide).
// Java's subclassing is modelled by the constant `kind` tag.
module Pieces {
  import opened Geometry
  import RamPiece
  import BizPiece
  import TorPiece
  import XorPiece
  import SauPiece

  /** The five subclasses of Pieces. */
  datatype Kind = Ram | Biz | Tor | Xor | Sau

  /** The name each subclass passes to the Pieces constructor (getName). */
  function KindName(k: Kind): string {
    match k
    case Ram => "Ram"
    case Biz => "Biz"
    case Tor => "Tor"
    case Xor => "Xor"
    case Sau => "Sau"
  }

  /** Distinct kinds carry distinct names, so a name identifies its kind. */
  lemma KindNameInjective(k: Kind, k': Kind)
    ensures KindName(k) == KindName(k') <==> k == k'
  {
  }

  /** The logical content of one piece: everything but its images and pixel position. */
  datatype PieceState = PieceState(kind: Kind, col: int, row: int, isRed: bool, flipped: bool, reachEnd: bool)

  /** A newly constructed piece: the Pieces constructor stores col, row, isRed
      and the name; `flipped` starts false, and so does a Ram's reachEnd. */
  function Fresh(kind: Kind, col: int, row: int, isRed: bool): PieceState {
    PieceState(kind, col, row, isRed, false, false)
  }

  /** flipOrientation: toggles the orientation flag and nothing else. */
  function Toggled(s: PieceState): PieceState {
    s.(flipped := !s.flipped)
  }

  /** Toggling the orientation twice restores the piece. */
  lemma ToggledTwice(s: PieceState)
    ensures Toggled(Toggled(s)) == s
  {
  }

  /** The side effect of one isValid query: Ram.isAtEdge on row 0 or 7 toggles
      reachEnd and sets flipped to reachEnd (Red) or to !reachEnd (Blue);
      every other query leaves the piece alone. */
  function QueryStep(s: PieceState): PieceState {
    if s.kind == Ram && RamPiece.AtEdge(s.row) then
      var reachEnd := !s.reachEnd;
      s.(reachEnd := reachEnd, flipped := if s.isRed then reachEnd else !reachEnd)
    else
      s
  }

  /** isValid of the piece's kind, evaluated on its state after the query step. */
  predicate Accepts(s: PieceState, c: int, r: int) {
    match s.kind
    case Ram => RamPiece.Accepts(s.col, s.row, s.reachEnd, c, r)
    case Biz => BizPiece.Accepts(s.col, s.row, c, r)
    case Tor => TorPiece.Accepts(s.col, s.row, c, r)
    case Xor => XorPiece.Accepts(s.col, s.row, c, r)
    case Sau => SauPiece.Accepts(s.col, s.row, c, r)
  }

  /** isCollide of the piece's kind: Tor and Xor scan their path; Ram, Biz and
      Sau inherit the default of Pieces.isCollide, which reports no obstruction. */
  ghost predicate Blocked(s: PieceState, c: int, r: int, occupied: set<Square>) {
    match s.kind
    case Tor => TorPiece.Blocked(s.col, s.row, c, r, occupied)
    case Xor => XorPiece.Blocked(s.col, s.row, c, r, occupied)
    case _ => false
  }

  /** Off the edge rows a Ram query changes nothing, and the Ram accepts only
      (col, row - 1) before reaching an end and (col, row + 1) after. */
  lemma RamQueryOffEdge(s: PieceState, c: int, r: int)
    requires s.kind == Ram && !RamPiece.AtEdge(s.row)
    ensures QueryStep(s) == s
    ensures Accepts(QueryStep(s), c, r)
        <==> c == s.col && r == (if s.reachEnd then s.row + 1 else s.row - 1)
  {
  }

  /** On an edge row each query toggles reachEnd exactly once, keeps the
      position and team, and leaves flipped equal to reachEnd for Red and to
      its negation for Blue. */
  lemma RamQueryAtEdge(s: PieceState)
    requires s.kind == Ram && RamPiece.AtEdge(s.row)
    ensures QueryStep(s).reachEnd == !s.reachEnd
    ensures QueryStep(s).(reachEnd := s.reachEnd, flipped := s.flipped) == s
    ensures QueryStep(s).flipped == (if s.isRed then QueryStep(s).reachEnd else !QueryStep(s).reachEnd)
  {
  }

  /** n consecutive isValid queries on the same piece. */
  function Queried(s: PieceState, n: nat): PieceState {
    if n == 0 then s else QueryStep(Queried(s, n - 1))
  }

  /** A Ram on an edge row ends up with reachEnd toggled iff it was queried an
      odd number of times: two consecutive queries cancel, so the direction it
      moves in depends on how often it was asked. */
  lemma {:induction false} RamQueryParity(s: PieceState, n: nat)
    requires s.kind == Ram && RamPiece.AtEdge(s.row)
    ensures Queried(s, n).kind == Ram && Queried(s, n).row == s.row && Queried(s, n).col == s.col
    ensures Queried(s, n).reachEnd == (if n % 2 == 0 then s.reachEnd else !s.reachEnd)
  {
    if n > 0 {
      RamQueryParity(s, n - 1);
    }
  }

  /** Queries of any piece other than a Ram on an edge row change nothing. */
  lemma {:induction false} QueriesWithoutEffect(s: PieceState, n: nat)
    requires s.kind != Ram || !RamPiece.AtEdge(s.row)
    ensures Queried(s, n) == s
  {
    if n > 0 {
      QueriesWithoutEffect(s, n - 1);
    }
  }

  /** A query never moves a piece, never changes its kind or team. */
  lemma QueryKeepsPlacement(s: PieceState)
    ensures QueryStep(s).kind == s.kind && QueryStep(s).col == s.col
    ensures QueryStep(s).row == s.row && QueryStep(s).isRed == s.isRed
  {
  }

  /** The piece object. `kind` and `isRed` never change after construction
      (a Tor/Xor swap replaces the object); `reachEnd` is only used by Rams. */
  class Piece {
    const kind: Kind
    const isRed: bool
    var col: int
    var row: int
    var flipped: bool
    var reachEnd: bool

    /** The logical state of this piece. */
    function State(): PieceState
      reads this
    {
      PieceState(kind, col, row, isRed, flipped, reachEnd)
    }

    /** The constructors of Ram, Biz, Tor, Xor and Sau. */
    constructor (kind: Kind, col: int, row: int, isRed: bool)
      ensures State() == Fresh(kind, col, row, isRed)
    {
      this.kind := kind;
      this.isRed := isRed;
      this.col := col;
      this.row := row;
      this.flipped := false;
      this.reachEnd := false;
    }

    /** getName. */
    function Name(): string {
      KindName(kind)
    }

    /** setCol: only the column changes. */
    method SetCol(c: int)
      modifies this`col
      ensures State() == old(State()).(col := c)
    {
      col := c;
    }

    /** setRow: only the row changes. */
    method SetRow(r: int)
      modifies this`row
      ensures State() == old(State()).(row := r)
    {
      row := r;
    }

    /** setFlipped: only the orientation flag changes, to b. */
    method SetFlipped(b: bool)
      modifies this`flipped
      ensures State() == old(State()).(flipped := b)
    {
      flipped := b;
    }

    /** flipOrientation (the image swap is presentation only). */
    method FlipOrientation()
      modifies this`flipped
      ensures State() == Toggled(old(State()))
    {
      if !flipped {
        flipped := true;
      } else {
        flipped := false;
      }
    }

    /** Ram.isAtEdge: the two team-specific edge tests. */
    method IsAtEdge()
      requires kind == Ram
      modifies this`reachEnd, this`flipped
      ensures State() == QueryStep(old(State()))
    {
      if (isRed == true && row == 7) || (isRed == true && row == 0) {
        reachEnd := !reachEnd;
        SetFlipped(reachEnd);
      }
      if (isRed == false && row == 7) || (isRed == false && row == 0) {
        reachEnd := !reachEnd;
        SetFlipped(!reachEnd);
      }
    }

    /** isValid, dispatched on the kind. Only a Ram's query changes the piece. */
    method IsValid(c: int, r: int) returns (ok: bool)
      modifies this`reachEnd, this`flipped
      ensures State() == QueryStep(old(State()))
      ensures ok == Accepts(State(), c, r)
    {
      match kind
      case Ram =>
        IsAtEdge();
        var ramMove := row + (if reachEnd then 1 else -1);
        ok := c == col && r == ramMove;
      case Biz =>
        ok := BizPiece.Accepts(col, row, c, r);
      case Tor =>
        ok := TorPiece.Accepts(col, row, c, r);
      case Xor =>
        ok := XorPiece.Accepts(col, row, c, r);
      case Sau =>
        ok := SauPiece.Accepts(col, row, c, r);
    }
  }
}
