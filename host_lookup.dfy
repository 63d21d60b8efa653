/**
 * Looking a generated GameID up in the cheat index. The desktop browser looks
 * the GameID up exactly as generated, with its space; the index stores every
 * key with its spaces removed. The lookup as written therefore never finds a
 * game; the corrected lookup removes the spaces first, the way the index
 * builder does.
 */
module HostLookup {
  import opened Wrappers
  import opened Text
  import opened Dict
  import opened CheatUtils
  import opened HeaderCrc32
  import opened GenerateGameId

  /**
   * `cheat_data.get(gameid, {})` with the GameID as generated: a GameID that
   * holds a space finds nothing in an index none of whose keys holds one.
   */
  function LookupAsWritten(index: Index, gameid: string): (r: Option<Game>)
    ensures r.Some? <==> gameid in Keys(index)
    ensures ' ' in gameid && (forall k :: k in Keys(index) ==> ' ' !in k) ==> r.None?
  {
    Get(index, gameid)
  }

  /**
   * The lookup after the key normalisation of the index builder: it finds the
   * entry stored under the GameID without its spaces, and agrees with the
   * lookup as written on a GameID that has none.
   */
  function NormalizedLookup(index: Index, gameid: string): (r: Option<Game>)
    ensures r.Some? <==> RemoveSpaces(gameid) in Keys(index)
    ensures ' ' !in gameid ==> r == LookupAsWritten(index, gameid)
  {
    if ' ' !in gameid then RemoveSpacesNoSpace(gameid); Get(index, RemoveSpaces(gameid))
    else Get(index, RemoveSpaces(gameid))
  }

  /** A generated GameID holds a space, so the lookup as written misses in every index built from a dataset. */
  lemma GeneratedIdNeverFound(root: Option<seq<GameRecord>>, toolOutput: Option<string>, rom: seq<Byte>)
    requires GameId(toolOutput, rom).Some?
    ensures LookupAsWritten(CheatIndex(root), GameId(toolOutput, rom).value).None?
  {
    var id := GameId(toolOutput, rom).value;
    GameIdShape(toolOutput, rom);
    assert ' ' in id;
  }

  /**
   * The corrected lookup finds the game stored last under the normalised
   * GameID: the index entry of that record.
   */
  lemma NormalizedLookupFinds(games: seq<GameRecord>, j: nat, toolOutput: Option<string>, rom: seq<Byte>)
    requires GameId(toolOutput, rom).Some?
    requires j < |games| && GameKey(games[j]) == RemoveSpaces(GameId(toolOutput, rom).value)
    requires forall i :: j < i < |games| ==> GameKey(games[i]) != GameKey(games[j])
    ensures NormalizedLookup(IndexGames(games), GameId(toolOutput, rom).value) == Some(GameOf(games[j]))
  {
    LastWriteWins(games, j);
  }

  /**
   * A dataset entry whose gameid text is the generated GameID itself is
   * stored under that GameID without its spaces: the key the corrected lookup
   * asks for.
   */
  lemma GeneratedIdAsDatasetText(g: GameRecord, toolOutput: Option<string>, rom: seq<Byte>)
    requires GameId(toolOutput, rom).Some?
    requires g.gameid == GameId(toolOutput, rom)
    ensures GameKey(g) == RemoveSpaces(GameId(toolOutput, rom).value)
  {
    var id := GameId(toolOutput, rom).value;
    var code := GameCode(toolOutput).value;
    var jamcrc := CalculateJamcrc(rom, HeaderSize).value;
    GameIdShape(toolOutput, rom);
    assert id[0] == code[0];
    assert IsUpperHexDigit(jamcrc[7]);
    assert id[|id| - 1] == jamcrc[7];
    StripNoEdgeSpace(id);
  }
}
