/** The search a node runs over its own lookup table. */
module LocalSearch {
  import opened Wrappers
  import opened Directions
  import opened LookupTables

  datatype Hit = Hit(id: Id, level: nat)

  /** The entries on direction `d` at levels 0 up to and including `level`. */
  function Candidates(t: Table, d: Direction, level: nat): seq<Hit>
    requires level < LOOKUP_TABLE_LEVELS
  {
    var lower := if level == 0 then [] else Candidates(t, d, level - 1);
    match t.Get(level, d)
    case None => lower
    case Some(x) => lower + [Hit(x.id, level)]
  }

  /** Keeps the candidates that are not past the target. */
  function NotPast(hits: seq<Hit>, d: Direction, target: Id): seq<Hit> {
    if hits == [] then []
    else
      var last := hits[|hits| - 1];
      NotPast(hits[..|hits| - 1], d, target) +
      match d {
        case Left => if last.id >= target then [last] else []
        case Right => if last.id <= target then [last] else []
      }
  }

  /** The last of the greatest identifiers. */
  function MaxById(hits: seq<Hit>): Option<Hit> {
    if hits == [] then None
    else
      var best, last := MaxById(hits[..|hits| - 1]), hits[|hits| - 1];
      if best.None? || last.id >= best.value.id then Some(last) else best
  }

  /** The first of the smallest identifiers. */
  function MinById(hits: seq<Hit>): Option<Hit> {
    if hits == [] then None
    else
      var best, last := MinById(hits[..|hits| - 1]), hits[|hits| - 1];
      if best.None? || last.id < best.value.id then Some(last) else best
  }

  function Select(t: Table, d: Direction, target: Id, level: nat): Option<Hit>
    requires level < LOOKUP_TABLE_LEVELS
  {
    var hits := NotPast(Candidates(t, d, level), d, target);
    match d
    case Left => MinById(hits)
    case Right => MaxById(hits)
  }

  /** The node's answer: the selected neighbour, or itself at level 0 when there is none. */
  function SearchById(self: Id, t: Table, d: Direction, target: Id, level: nat): Result<Hit> {
    if level >= LOOKUP_TABLE_LEVELS then Failure("error while searching by id")
    else
      match Select(t, d, target, level)
      case Some(hit) => Success(hit)
      case None => Success(Hit(self, 0))
  }

  // ----- what the search finds

  /** The table holds, at `l`, an entry on direction `d` that is not past the target. */
  predicate Admissible(t: Table, d: Direction, target: Id, l: nat)
    requires l < LOOKUP_TABLE_LEVELS
  {
    t.Get(l, d).Some? && Key(d, t.Get(l, d).value.id) <= Key(d, target)
  }

  /**
   `hit` is the admissible entry closest to the target among levels 0 to `level`. Of several levels
   holding it, a rightward search names the highest and a leftward search the lowest.
   */
  ghost predicate Optimal(t: Table, d: Direction, target: Id, level: nat, hit: Option<Hit>)
    requires level < LOOKUP_TABLE_LEVELS
  {
    match hit
    case None => forall l: nat :: l <= level ==> !Admissible(t, d, target, l)
    case Some(h) =>
      && h.level <= level && Admissible(t, d, target, h.level) && t.Get(h.level, d).value.id == h.id
      && forall l: nat :: l <= level && Admissible(t, d, target, l) ==>
           && Key(d, t.Get(l, d).value.id) <= Key(d, h.id)
           && (t.Get(l, d).value.id == h.id ==> if d.Right? then l <= h.level else h.level <= l)
  }

  /** How one more level changes the selection: ties go up rightward and stay down leftward. */
  lemma SelectStep(t: Table, d: Direction, target: Id, level: nat)
    requires level < LOOKUP_TABLE_LEVELS
    ensures var best := if level == 0 then None else Select(t, d, target, level - 1);
            if !Admissible(t, d, target, level) then Select(t, d, target, level) == best
            else
              var last := Hit(t.Get(level, d).value.id, level);
              Select(t, d, target, level) ==
              if best.None? || Beyond(d, best.value.id, last.id) || (d.Right? && best.value.id == last.id)
              then Some(last) else best
  {
    var hits := Candidates(t, d, level);
    var lower := if level == 0 then [] else Candidates(t, d, level - 1);
    if t.Get(level, d).Some? {
      var last := Hit(t.Get(level, d).value.id, level);
      assert hits == lower + [last] && hits[..|hits| - 1] == lower;
      var admitted := NotPast(hits, d, target);
      if Admissible(t, d, target, level) {
        assert admitted == NotPast(lower, d, target) + [last];
        assert admitted[..|admitted| - 1] == NotPast(lower, d, target) && admitted[|admitted| - 1] == last;
        assert MaxById([]) == None && MinById([]) == None;
      } else {
        assert admitted == NotPast(lower, d, target);
      }
    }
  }

  lemma {:induction false} SelectIsOptimal(t: Table, d: Direction, target: Id, level: nat)
    requires level < LOOKUP_TABLE_LEVELS
    ensures Optimal(t, d, target, level, Select(t, d, target, level))
  {
    SelectStep(t, d, target, level);
    if level > 0 { SelectIsOptimal(t, d, target, level - 1); }
  }

  /** The answer in one statement: self exactly when nothing is admissible, the optimum otherwise. */
  lemma SearchByIdIsOptimal(self: Id, t: Table, d: Direction, target: Id, level: nat)
    ensures SearchById(self, t, d, target, level).Success? <==> level < LOOKUP_TABLE_LEVELS
    ensures level < LOOKUP_TABLE_LEVELS ==>
              var hit := SearchById(self, t, d, target, level).value;
              Optimal(t, d, target, level, Some(hit)) || (Optimal(t, d, target, level, None) && hit == Hit(self, 0))
  {
    if level < LOOKUP_TABLE_LEVELS { SelectIsOptimal(t, d, target, level); }
  }

  function MaxLevel(t: Table): nat {
    match MaxPopulatedLevel(t)
    case None => 0
    case Some(m) => m
  }

  /** Levels above the highest populated one add no candidate. */
  lemma {:induction false} NothingAboveMaxLevel(t: Table, d: Direction, level: nat)
    requires MaxLevel(t) <= level < LOOKUP_TABLE_LEVELS
    ensures Candidates(t, d, level) == Candidates(t, d, MaxLevel(t))
  {
    if MaxLevel(t) < level {
      assert !Populated(t, level);
      assert t.Get(level, d).None?;
      NothingAboveMaxLevel(t, d, level - 1);
    }
  }

  /** Starting at the node's own maximum level answers exactly as starting at the top. */
  lemma MaxLevelSearchIsFullSearch(self: Id, t: Table, d: Direction, target: Id)
    ensures SearchById(self, t, d, target, MaxLevel(t)) == SearchById(self, t, d, target, LOOKUP_TABLE_LEVELS - 1)
  {
    NothingAboveMaxLevel(t, d, LOOKUP_TABLE_LEVELS - 1);
  }
}
