/**
 * One grid cell (class Tile of src/map.py): a fixed state, a signed terraform
 * level (positive is blue ground, negative red), one fog-of-war bit per team
 * and a metal yield. The two mutators return the updated tile together with
 * the Python method's boolean result.
 */
module Tiles {
  import opened Constants
  import opened Errors
  import opened Info

  /** The direction one terraform step moves the level for `team`: blue up, red down. */
  function TerraformStep(team: Team): (step: int)
    ensures step == 1 || step == -1
    ensures (step > 0) <==> (team == Blue)
  {
    if team == Blue then 1 else -1
  }

  datatype Tile = Tile(
    state: TileState,
    row: int,
    col: int,
    terraform: int,
    fogBlue: bool,
    fogRed: bool,
    mining: int)
  {
    /** Whether `team` cannot see this tile. */
    predicate IsFogged(team: Team) {
      if team == Blue then fogBlue else fogRed
    }

    /** The level lies in [-TERRAFORM_MAX, TERRAFORM_MAX]. */
    predicate Clamped() {
      -TERRAFORM_MAX <= terraform <= TERRAFORM_MAX
    }

    /**
     * One terraform step for `team`; false, with the tile unchanged, when the
     * level is already at that team's end of the range.
     */
    function Terraform(team: Team): (r: (Tile, bool))
      ensures r.1 <==> (if team == Blue then terraform < TERRAFORM_MAX else terraform > -TERRAFORM_MAX)
      ensures r.1 ==> r.0 == this.(terraform := terraform + TerraformStep(team))
      ensures !r.1 ==> r.0 == this
      ensures Clamped() ==> r.0.Clamped()
      ensures forall t :: r.0.IsFogged(t) == IsFogged(t)
    {
      if team == Blue then
        if terraform >= TERRAFORM_MAX then (this, false)
        else (this.(terraform := terraform + 1), true)
      else
        if terraform <= -TERRAFORM_MAX then (this, false)
        else (this.(terraform := terraform - 1), true)
    }

    /**
     * Clears `team`'s fog bit; true exactly when it was set. The other team's
     * bit and every other field are untouched.
     */
    function Explore(team: Team): (r: (Tile, bool))
      ensures r.1 <==> IsFogged(team)
      ensures !r.0.IsFogged(team)
      ensures r.0.IsFogged(Other(team)) == IsFogged(Other(team))
      ensures forall t :: r.0.IsFogged(t) ==> IsFogged(t)
      ensures r.0.(fogBlue := fogBlue, fogRed := fogRed) == this
      ensures !r.1 ==> r.0 == this
    {
      if team == Blue && fogBlue then (this.(fogBlue := false), true)
      else if team == Red && fogRed then (this.(fogRed := false), true)
      else (this, false)
    }

    /** What `team` is shown: nothing under fog; red sees the level negated. */
    function GetInfo(team: Team): (r: Option<TileInfo>)
      ensures r.None? <==> IsFogged(team)
      ensures r.Some? ==> r.value.state == state && r.value.row == row && r.value.col == col
      ensures r.Some? ==> r.value.mining == mining && r.value.robot == None
      ensures r.Some? ==> r.value.terraform * TerraformStep(team) == terraform
    {
      if team == Blue && fogBlue then None
      else if team == Red && fogRed then None
      else if team == Red then Some(TileInfo(state, row, col, terraform * -1, mining, None))
      else Some(TileInfo(state, row, col, terraform, mining, None))
    }
  }

  /** Repeated terraforming from inside the range never leaves it, and stops at the team's end. */
  lemma {:induction false} TerraformSaturates(tile: Tile, team: Team, n: nat)
    requires tile.Clamped()
    ensures TerraformN(tile, team, n).Clamped()
    ensures n >= 2 * TERRAFORM_MAX ==> TerraformN(tile, team, n).terraform == TERRAFORM_MAX * TerraformStep(team)
  {
    if n > 0 {
      TerraformSaturates(tile, team, n - 1);
      var prev := TerraformN(tile, team, n - 1);
      if n - 1 >= 2 * TERRAFORM_MAX {
        assert prev.terraform == TERRAFORM_MAX * TerraformStep(team);
      } else if n >= 2 * TERRAFORM_MAX {
        TerraformDistance(tile, team, n - 1);
      }
    }
  }

  /** `n` terraform steps by the same team. */
  function TerraformN(tile: Tile, team: Team, n: nat): Tile
  {
    if n == 0 then tile else TerraformN(tile, team, n - 1).Terraform(team).0
  }

  /** After n steps the level has moved n toward the team's end, or reached it. */
  lemma {:induction false} TerraformDistance(tile: Tile, team: Team, n: nat)
    requires tile.Clamped()
    ensures var t := TerraformN(tile, team, n);
      t.Clamped() &&
      (t.terraform == TERRAFORM_MAX * TerraformStep(team) ||
       t.terraform == tile.terraform + n * TerraformStep(team))
  {
    if n > 0 {
      TerraformDistance(tile, team, n - 1);
    }
  }
}
