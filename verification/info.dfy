/** Read-only snapshots handed to players (src/info.py). */
module Info {
  import opened Constants
  import opened Errors

  /** A snapshot of one robot. */
  datatype RobotInfo = RobotInfo(
    battery: int,
    acted: bool,
    moved: bool,
    actionCost: int,
    row: int,
    col: int,
    team: Team,
    name: string,
    kind: RobotType)

  /**
   * A snapshot of one visible tile; `terraform` is from the viewer's side. The
   * kernel always leaves `robot` empty.
   */
  datatype TileInfo = TileInfo(
    state: TileState,
    row: int,
    col: int,
    terraform: int,
    mining: int,
    robot: Option<RobotInfo>)
}
