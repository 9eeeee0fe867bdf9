/**
 * The enemy roster as the rules see it: each living entry's id, cell and kind,
 * in list order. `Filter` is the array `filter` the source applies to it both
 * when targeting an attack and when an enemy dies.
 */
module Roster {
  import opened Wrappers
  import opened Enums
  import opened Tiles

  /** Entity ids are opaque strings; distinct entities have distinct ids. */
  type Id = string

  /** A roster entry: the fields of an entity the rules read. */
  datatype Occupant = Occupant(id: Id, x: int, y: int, kind: EntityType)
  {
    predicate At(p: Pos) {
      x == p.x && y == p.y
    }
  }

  /** The entries of `s` that satisfy `keep`, in their original order. */
  function Filter<T(==,!new)>(s: seq<T>, keep: T -> bool): (r: seq<T>)
    ensures |r| <= |s|
    ensures forall e :: e in r <==> e in s && keep(e)
    ensures (forall e :: e in s ==> keep(e)) ==> r == s
  {
    if s == [] then [] else (if keep(s[0]) then [s[0]] else []) + Filter(s[1..], keep)
  }

  /** Filtering distributes over concatenation: kept entries stay in order relative to each other. */
  lemma {:induction false} FilterConcat<T(!new)>(a: seq<T>, b: seq<T>, keep: T -> bool)
    ensures Filter(a + b, keep) == Filter(a, keep) + Filter(b, keep)
  {
    if a == [] {
      assert a + b == b;
    } else {
      assert (a + b)[0] == a[0];
      assert (a + b)[1..] == a[1..] + b;
      FilterConcat(a[1..], b, keep);
    }
  }

  /** The roster without every entry carrying `id` (BattleManager's death filter). */
  function Without(roster: seq<Occupant>, id: Id): seq<Occupant>
  {
    Filter(roster, (e: Occupant) => e.id != id)
  }

  /** The entries whose kind is ENEMY (the player's attack filter). */
  function Enemies(roster: seq<Occupant>): seq<Occupant>
  {
    Filter(roster, (e: Occupant) => e.kind == Enemy)
  }

  /** The id of the first entry of `foes` standing on `p`, scanning in list order. */
  function FirstAt(foes: seq<Occupant>, p: Pos): (r: Option<Id>)
    ensures r.None? <==> forall i :: 0 <= i < |foes| ==> !foes[i].At(p)
    ensures r.Some? ==>
      exists i :: 0 <= i < |foes| && foes[i].At(p) && foes[i].id == r.value &&
        forall j :: 0 <= j < i ==> !foes[j].At(p)
  {
    if foes == [] then None
    else if foes[0].At(p) then Some(foes[0].id)
    else
      var r := FirstAt(foes[1..], p);
      assert r.Some? ==> exists i :: 1 <= i < |foes| && foes[i].At(p) && foes[i].id == r.value &&
                                     (forall j :: 0 <= j < i ==> !foes[j].At(p)) by {
        if r.Some? {
          var k :| 0 <= k < |foes| - 1 && foes[1..][k].At(p) && foes[1..][k].id == r.value &&
            forall j :: 0 <= j < k ==> !foes[1..][j].At(p);
          assert forall j :: 0 <= j < k + 1 ==> !foes[j].At(p) by {
            forall j | 0 <= j < k + 1 ensures !foes[j].At(p) {
              if j > 0 { assert foes[j] == foes[1..][j - 1]; }
            }
          }
        }
      }
      r
  }

  /** Removing an id keeps every entry with another id, drops every entry with that id, and keeps their order. */
  lemma WithoutRemovesExactly(roster: seq<Occupant>, id: Id, a: seq<Occupant>, b: seq<Occupant>)
    ensures forall e :: e in Without(roster, id) <==> e in roster && e.id != id
    ensures Without(a + b, id) == Without(a, id) + Without(b, id)
  {
    FilterConcat(a, b, (e: Occupant) => e.id != id);
  }

  /**
   * Attack targeting scans only ENEMY entries, and the first of them in roster
   * order that stands on `p` wins, whatever other kinds stand there too.
   */
  lemma {:induction false} FirstEnemyWins(roster: seq<Occupant>, p: Pos, i: nat)
    requires i < |roster| && roster[i].kind == Enemy && roster[i].At(p)
    requires forall j :: 0 <= j < i ==> !(roster[j].kind == Enemy && roster[j].At(p))
    ensures FirstAt(Enemies(roster), p) == Some(roster[i].id)
  {
    var keep := (e: Occupant) => e.kind == Enemy;
    assert roster == [roster[0]] + roster[1..];
    FilterConcat([roster[0]], roster[1..], keep);
    assert Filter([roster[0]], keep) == (if keep(roster[0]) then [roster[0]] else []);
    if i == 0 {
    } else {
      FirstEnemyWins(roster[1..], p, i - 1);
      if keep(roster[0]) {
        assert Enemies(roster) == [roster[0]] + Enemies(roster[1..]);
        assert (Enemies(roster))[1..] == Enemies(roster[1..]);
      } else {
        assert Enemies(roster) == Enemies(roster[1..]);
      }
    }
  }

  /**
   * Scanning the ENEMY entries finds a target on `p` exactly when some ENEMY
   * entry of the roster stands there, and the target is such an entry.
   */
  lemma EnemyTargets(roster: seq<Occupant>, p: Pos)
    ensures FirstAt(Enemies(roster), p).Some? <==> exists e :: e in roster && e.kind == Enemy && e.At(p)
    ensures FirstAt(Enemies(roster), p).Some? ==>
              exists e :: e in roster && e.kind == Enemy && e.At(p) && e.id == FirstAt(Enemies(roster), p).value
  {
    var foes := Enemies(roster);
    if FirstAt(foes, p).Some? {
      var i :| 0 <= i < |foes| && foes[i].At(p) && foes[i].id == FirstAt(foes, p).value;
      assert foes[i] in foes;
    }
    if e :| e in roster && e.kind == Enemy && e.At(p) {
      assert e in foes;
      var i :| 0 <= i < |foes| && foes[i] == e;
    }
  }
}
