/** The enums tutorial: an operation status with its description, and a player whose level changes. */
module Enums {

  const EMPTY_TITLE: string := "Title is empty"

  /** `_Status`. */
  datatype Status = Success | Failed(msg: string)
  {
    /** `_get_info`: "Success", or the stored message. */
    function GetInfo(): (info: string)
      ensures Success? ==> info == "Success"
      ensures Failed? ==> info == msg
    {
      match this
      case Success => "Success"
      case Failed(msg) => msg
    }
  }

  /** `_create_status`: an empty title fails with "Title is empty"; any other title succeeds. */
  function CreateStatus(title: string): (s: Status)
    ensures s.Failed? <==> title == []
    ensures s.Failed? ==> s.msg == EMPTY_TITLE
  {
    if title == [] then Failed(EMPTY_TITLE) else Success
  }

  /** The description of a created status tells whether the title was empty. */
  lemma CreateStatusInfo(title: string)
    ensures CreateStatus(title).GetInfo() == "Success" <==> title != []
    ensures CreateStatus(title).GetInfo() == EMPTY_TITLE <==> title == []
  {
  }

  /** The tutorial's two statuses. */
  lemma CreateStatusExamples()
    ensures CreateStatus("Rust").GetInfo() == "Success"
    ensures CreateStatus("").GetInfo() == "Title is empty"
  {
  }

  datatype Level = Low | Medium | High

  class Player {
    const name: string
    var level: Level
    var isActive: bool

    /** `Player::new`. */
    constructor (name: string, level: Level, isActive: bool)
      ensures this.name == name && this.level == level && this.isActive == isActive
    {
      this.name := name;
      this.level := level;
      this.isActive := isActive;
    }

    /** `change`: overwrites the level and the active flag; the name cannot change. */
    method Change(level: Level, isActive: bool)
      modifies this
      ensures this.level == level && this.isActive == isActive
    {
      this.level := level;
      this.isActive := isActive;
    }
  }

  /** The tutorial's player: "Player 001" at `High`, active, changed to `Medium`, inactive. */
  method PlayerScenario() returns (name: string, level: Level, isActive: bool)
    ensures name == "Player 001" && level == Medium && !isActive
  {
    var player := new Player("Player 001", High, true);
    player.Change(Medium, false);
    name, level, isActive := player.name, player.level, player.isActive;
  }
}
