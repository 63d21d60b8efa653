/**
 * The cheat database index and its two searches.
 *
 * A dataset is a sequence of game records, each with a name, a gameid text,
 * cheats placed directly under the game ("loose" cheats) and named folders of
 * cheats. Building the index turns it into an insertion-ordered dictionary
 * from GameID (the gameid text, stripped, with every space removed) to a game:
 * its name and its folders, where loose cheats are gathered in a synthetic
 * first folder called "General".
 */
module CheatUtils {
  import opened Wrappers
  import opened Text
  import opened Seqs
  import opened Dict

  datatype Cheat = Cheat(name: string, notes: string, codes: string)

  datatype Folder = Folder(folderName: string, cheats: seq<Cheat>)

  datatype Game = Game(name: string, folders: seq<Folder>)

  /** The cheat index: GameID to game, in the order the GameIDs first appeared. */
  type Index = Dict<string, Game>

  /*
   * The dataset tree. A text field is `None` when the record has no child with
   * that tag and `Some(t)` with the text of the first such child otherwise
   * (`t` is empty when that child has no text).
   */

  datatype CheatRecord = CheatRecord(name: Option<string>, note: Option<string>, codes: Option<string>)

  datatype FolderRecord = FolderRecord(name: Option<string>, cheats: seq<CheatRecord>)

  datatype GameRecord = GameRecord(
    name: Option<string>,
    gameid: Option<string>,
    cheats: seq<CheatRecord>,
    folders: seq<FolderRecord>)

  const GeneralFolderName := "General"

  /**
   * The text of a tag, stripped of surrounding whitespace; the empty string
   * when the tag is absent or has no text. Never a missing value.
   */
  function GetText(field: Option<string>): (r: string)
    ensures field.None? ==> r == ""
    ensures field.Some? ==> IsTrimmingOf(field.value, r)
    ensures field.Some? ==> (r == "" <==> AllSpace(field.value))
    ensures r != [] ==> !IsSpace(r[0]) && !IsSpace(r[|r| - 1])
  {
    match field
    case None => ""
    case Some(text) =>
      StripRemovesOnlySpace(text);
      if text == "" then assert TrimmedAt(text, "", 0); "" else Strip(text)
  }

  // ---------------------------------------------------------------------------
  // Building the index (parse_cheats)
  // ---------------------------------------------------------------------------

  function ToCheat(c: CheatRecord): Cheat {
    Cheat(GetText(c.name), GetText(c.note), GetText(c.codes))
  }

  function ToCheats(cs: seq<CheatRecord>): (r: seq<Cheat>)
    ensures |r| == |cs|
    ensures forall i :: 0 <= i < |cs| ==> r[i] == ToCheat(cs[i])
  {
    if cs == [] then [] else ToCheats(cs[..|cs| - 1]) + [ToCheat(cs[|cs| - 1])]
  }

  function ToFolder(f: FolderRecord): Folder {
    Folder(GetText(f.name), ToCheats(f.cheats))
  }

  function ToFolders(fs: seq<FolderRecord>): (r: seq<Folder>)
    ensures |r| == |fs|
    ensures forall i :: 0 <= i < |fs| ==> r[i] == ToFolder(fs[i])
  {
    if fs == [] then [] else ToFolders(fs[..|fs| - 1]) + [ToFolder(fs[|fs| - 1])]
  }

  /** The synthetic folder of loose cheats, present only when there are some. */
  function GeneralFolders(g: GameRecord): seq<Folder> {
    if |g.cheats| > 0 then [Folder(GeneralFolderName, ToCheats(g.cheats))] else []
  }

  /**
   * The game a record stands for: its stripped name, then the "General" folder
   * of loose cheats when there are any, then one folder per folder record.
   */
  function GameOf(g: GameRecord): (r: Game)
    ensures r.name == GetText(g.name)
    ensures |r.folders| == |g.folders| + if |g.cheats| > 0 then 1 else 0
    ensures var offset := |r.folders| - |g.folders|;
      forall i :: 0 <= i < |g.folders| ==> r.folders[offset + i] == ToFolder(g.folders[i])
  {
    Game(GetText(g.name), GeneralFolders(g) + ToFolders(g.folders))
  }

  /** The index key of a game record: its gameid text with all spaces removed. */
  function GameKey(g: GameRecord): (k: string)
    ensures ' ' !in k
    ensures |k| <= |GetText(g.gameid)|
    ensures g.gameid.None? ==> k == ""
  {
    RemoveSpaces(GetText(g.gameid))
  }

  function GameKeys(games: seq<GameRecord>): (r: seq<string>)
    ensures |r| == |games|
    ensures forall i :: 0 <= i < |games| ==> r[i] == GameKey(games[i])
  {
    if games == [] then [] else GameKeys(games[..|games| - 1]) + [GameKey(games[|games| - 1])]
  }

  /** The index after storing every game record in document order. */
  function IndexGames(games: seq<GameRecord>): (r: Index)
    ensures forall k :: k in Keys(r) ==> ' ' !in k
    decreases |games|
  {
    if games == [] then []
    else
      var last := games[|games| - 1];
      var prev := IndexGames(games[..|games| - 1]);
      var key := GameKey(last);
      PutSpec(prev, key, GameOf(last));
      Put(prev, key, GameOf(last))
  }

  /** `parse_cheats(root)`: no tree gives the empty index. */
  function CheatIndex(root: Option<seq<GameRecord>>): (r: Index)
    ensures root.None? ==> r == []
    ensures forall k :: k in Keys(r) ==> ' ' !in k
  {
    match root
    case None => []
    case Some(games) => IndexGames(games)
  }

  /** Keys appear in the order in which their games first appear in the dataset. */
  lemma {:induction false} IndexKeyOrder(games: seq<GameRecord>)
    ensures Keys(IndexGames(games)) == FirstOccurrences(GameKeys(games))
    decreases |games|
  {
    if games != [] {
      var init := games[..|games| - 1];
      var last := games[|games| - 1];
      PutSpec(IndexGames(init), GameKey(last), GameOf(last));
      IndexKeyOrder(init);
      assert GameKeys(games)[..|games| - 1] == GameKeys(init);
    }
  }

  /** When several games share a key, the index holds the last of them. */
  lemma {:induction false} LastWriteWins(games: seq<GameRecord>, j: nat)
    requires j < |games|
    requires forall i :: j < i < |games| ==> GameKey(games[i]) != GameKey(games[j])
    ensures Get(IndexGames(games), GameKey(games[j])) == Some(GameOf(games[j]))
    decreases |games|
  {
    var init := games[..|games| - 1];
    var last := games[|games| - 1];
    PutSpec(IndexGames(init), GameKey(last), GameOf(last));
    if j < |games| - 1 {
      assert init[j] == games[j];
      LastWriteWins(init, j);
    }
  }

  /** Every key of the index belongs to some game record of the dataset. */
  lemma {:induction false} IndexKeysFromDataset(games: seq<GameRecord>, k: string)
    requires k in Keys(IndexGames(games))
    ensures exists i :: 0 <= i < |games| && GameKey(games[i]) == k
  {
    IndexKeyOrder(games);
    assert k in GameKeys(games);
  }

  function FoldersNamed(folders: seq<Folder>, name: string): seq<Folder> {
    Filter(folders, (f: Folder) => f.folderName == name)
  }

  /**
   * The folders of a game: "General" first, holding the loose cheats in order,
   * when there are loose cheats, and then every explicit folder in order, even
   * an empty one. Each cheat takes its fields from its name, note and codes tags.
   */
  lemma FolderLayout(g: GameRecord)
    ensures var folders := GameOf(g).folders;
      var offset := if |g.cheats| > 0 then 1 else 0;
      && |folders| == offset + |g.folders|
      && (|g.cheats| > 0 ==> folders[0].folderName == GeneralFolderName
                             && |folders[0].cheats| == |g.cheats|
                             && forall i :: 0 <= i < |g.cheats| ==> folders[0].cheats[i] == ToCheat(g.cheats[i]))
      && forall i :: 0 <= i < |g.folders| ==>
           folders[offset + i].folderName == GetText(g.folders[i].name)
           && folders[offset + i].cheats == ToCheats(g.folders[i].cheats)
  {
  }

  /**
   * Unless the dataset itself names a folder "General", a game has exactly one
   * folder named "General" when it has loose cheats and none otherwise.
   */
  lemma GeneralFolderCount(g: GameRecord)
    requires forall i :: 0 <= i < |g.folders| ==> GetText(g.folders[i].name) != GeneralFolderName
    ensures |FoldersNamed(GameOf(g).folders, GeneralFolderName)| == if |g.cheats| > 0 then 1 else 0
  {
    var p := (f: Folder) => f.folderName == GeneralFolderName;
    var general := GeneralFolders(g);
    var explicit := ToFolders(g.folders);
    forall x | x in explicit
      ensures !p(x)
    {
      var i :| 0 <= i < |explicit| && explicit[i] == x;
    }
    FilterDropsAll(explicit, p);
    FilterAppend(general, explicit, p);
    FilterKeepsAll(general, p);
  }

  /** Builds one explicit folder: a loop over its cheats. */
  method ParseFolder(f: FolderRecord) returns (folder: Folder)
    ensures folder == ToFolder(f)
  {
    var name := GetText(f.name);
    var cheats: seq<Cheat> := [];
    var i := 0;
    while i < |f.cheats|
      invariant 0 <= i <= |f.cheats|
      invariant cheats == ToCheats(f.cheats[..i])
    {
      var c := f.cheats[i];
      assert f.cheats[..i + 1][..i] == f.cheats[..i];
      cheats := cheats + [Cheat(GetText(c.name), GetText(c.note), GetText(c.codes))];
      i := i + 1;
    }
    assert f.cheats[..i] == f.cheats;
    folder := Folder(name, cheats);
  }

  lemma ToFoldersStep(fs: seq<FolderRecord>, i: nat)
    requires i < |fs|
    ensures ToFolders(fs[..i + 1]) == ToFolders(fs[..i]) + [ToFolder(fs[i])]
  {
    assert fs[..i + 1][..i] == fs[..i];
  }

  /** The explicit folders of a game record, in document order: a loop over them. */
  method ParseFolders(fs: seq<FolderRecord>) returns (folders: seq<Folder>)
    ensures folders == ToFolders(fs)
  {
    folders := [];
    var i := 0;
    while i < |fs|
      invariant 0 <= i <= |fs|
      invariant folders == ToFolders(fs[..i])
    {
      var folder := ParseFolder(fs[i]);
      ToFoldersStep(fs, i);
      folders := folders + [folder];
      i := i + 1;
    }
    assert fs[..i] == fs;
  }

  /** Builds the key and the game of one game record. */
  method ParseGame(g: GameRecord) returns (key: string, game: Game)
    ensures key == GameKey(g) && ' ' !in key
    ensures game == GameOf(g)
  {
    var folders: seq<Folder> := [];
    if |g.cheats| > 0 {
      folders := [Folder(GeneralFolderName, ToCheats(g.cheats))];
    }
    var explicit := ParseFolders(g.folders);
    folders := folders + explicit;
    key := RemoveSpaces(GetText(g.gameid));
    game := Game(GetText(g.name), folders);
  }

  lemma IndexGamesStep(games: seq<GameRecord>, i: nat)
    requires i < |games|
    ensures IndexGames(games[..i + 1]) == Put(IndexGames(games[..i]), GameKey(games[i]), GameOf(games[i]))
  {
    assert games[..i + 1][..i] == games[..i];
  }

  /** `parse_cheats`: a loop over the game records, storing each under its key. */
  method ParseCheats(root: Option<seq<GameRecord>>) returns (index: Index)
    ensures index == CheatIndex(root)
    ensures forall k :: k in Keys(index) ==> ' ' !in k
  {
    if root.None? {
      return [];
    }
    var games := root.value;
    index := [];
    var i := 0;
    while i < |games|
      invariant 0 <= i <= |games|
      invariant index == IndexGames(games[..i])
    {
      var key, game := ParseGame(games[i]);
      IndexGamesStep(games, i);
      index := Put(index, key, game);
      i := i + 1;
    }
    assert games[..i] == games;
  }

  // ---------------------------------------------------------------------------
  // search_games
  // ---------------------------------------------------------------------------

  /** A game matches a lower-cased term through its lower-cased name or GameID. */
  predicate GameMatches(gameId: string, game: Game, term: string) {
    Contains(Lower(game.name), term) || Contains(Lower(gameId), term)
  }

  /** `search_games(index, term)`: an empty term keeps everything. */
  function MatchingGames(index: Index, term: string): (r: Index)
    ensures term == "" ==> r == index
  {
    if term == "" then index
    else
      var lowered := Lower(term);
      var r := Filter(index, (e: (string, Game)) => GameMatches(e.0, e.1, lowered));
      FilterKeepsDistinctKeys(index, (e: (string, Game)) => GameMatches(e.0, e.1, lowered));
      r
  }

  /**
   * With a non-empty term the result holds exactly the entries of the index
   * whose name or GameID contains the term, ignoring case, with their values
   * unchanged and in their original order.
   */
  lemma SearchGamesSoundComplete(index: Index, term: string)
    requires term != ""
    ensures var r := MatchingGames(index, term);
      && (forall k, g :: (k, g) in r <==> (k, g) in index && GameMatches(k, g, Lower(term)))
      && (forall i, j :: 0 <= i < j < |r| ==> Position(index, r[i].0) < Position(index, r[j].0))
  {
    var lowered := Lower(term);
    var p := (e: (string, Game)) => GameMatches(e.0, e.1, lowered);
    FilterKeepsOrder(index, p);
    var r := MatchingGames(index, term);
    forall k, g | (k, g) in index && GameMatches(k, g, lowered)
      ensures (k, g) in r
    {
      var i :| 0 <= i < |index| && index[i] == (k, g);
      assert p(index[i]);
    }
  }

  /** `search_games`: a loop that copies every matching entry into a new dictionary. */
  method SearchGames(index: Index, term: string) returns (r: Index)
    ensures r == MatchingGames(index, term)
    ensures term != "" ==> forall k, g :: (k, g) in r <==> (k, g) in index && GameMatches(k, g, Lower(term))
  {
    if term == "" {
      return index;
    }
    var lowered := Lower(term);
    ghost var p := (e: (string, Game)) => GameMatches(e.0, e.1, lowered);
    r := [];
    var i := 0;
    while i < |index|
      invariant 0 <= i <= |index|
      invariant r == Filter(index[..i], p)
    {
      var (gameId, game) := index[i];
      FilterStepPut(index, i, p, r);
      assert p(index[i]) == GameMatches(gameId, game, lowered);
      if Contains(Lower(game.name), lowered) || Contains(Lower(gameId), lowered) {
        r := Put(r, gameId, game);
      }
      i := i + 1;
    }
    assert index[..i] == index;
    SearchGamesSoundComplete(index, term);
  }

  // ---------------------------------------------------------------------------
  // search_cheats
  // ---------------------------------------------------------------------------

  /** A cheat matches a lower-cased term through its lower-cased name, notes or codes. */
  predicate CheatMatches(c: Cheat, term: string) {
    Contains(Lower(c.name), term) || Contains(Lower(c.notes), term) || Contains(Lower(c.codes), term)
  }

  function MatchingCheatsOf(f: Folder, term: string): Folder {
    Folder(f.folderName, Filter(f.cheats, (c: Cheat) => CheatMatches(c, term)))
  }

  /** Every folder, each keeping only its matching cheats. */
  function EachMatchingCheats(folders: seq<Folder>, term: string): (r: seq<Folder>)
    ensures |r| == |folders|
    ensures forall i :: 0 <= i < |folders| ==> r[i] == MatchingCheatsOf(folders[i], term)
  {
    if folders == [] then []
    else EachMatchingCheats(folders[..|folders| - 1], term) + [MatchingCheatsOf(folders[|folders| - 1], term)]
  }

  predicate HasCheats(f: Folder) {
    |f.cheats| > 0
  }

  /** The folders left with at least one matching cheat, each keeping only those. */
  function MatchingFolders(folders: seq<Folder>, term: string): (r: seq<Folder>)
    ensures |r| <= |folders|
    ensures forall f :: f in r ==> HasCheats(f) && forall c :: c in f.cheats ==> CheatMatches(c, term)
    ensures forall i :: 0 <= i < |folders| && HasCheats(MatchingCheatsOf(folders[i], term)) ==> MatchingCheatsOf(folders[i], term) in r
  {
    var each := EachMatchingCheats(folders, term);
    assert forall f :: f in each ==> forall c :: c in f.cheats ==> CheatMatches(c, term) by {
      forall f | f in each
        ensures forall c :: c in f.cheats ==> CheatMatches(c, term)
      {
        var i :| 0 <= i < |each| && each[i] == f;
      }
    }
    Filter(each, HasCheats)
  }

  /**
   * `search_cheats(index, gameId, term)`: `None` is the empty result `{}` of
   * the source.
   */
  function MatchingCheats(index: Index, gameId: string, term: string): (r: Option<Game>)
    ensures gameId !in Keys(index) ==> r == None
  {
    if gameId == "" || term == "" then Get(index, gameId)
    else
      match Get(index, gameId)
      case None => None
      case Some(game) => Some(Game(game.name, MatchingFolders(game.folders, Lower(term))))
  }

  /** With an empty GameID or term the game comes back unfiltered, or not at all when absent. */
  lemma SearchCheatsUnfiltered(index: Index, gameId: string, term: string)
    requires gameId == "" || term == ""
    ensures MatchingCheats(index, gameId, term) == Get(index, gameId)
    ensures gameId in Keys(index) ==> MatchingCheats(index, gameId, term).Some?
  {
  }

  /**
   * For a present game and a non-empty term: the name passes through, every
   * kept folder is non-empty and every kept cheat matches.
   */
  lemma SearchCheatsSound(index: Index, gameId: string, term: string)
    requires gameId != "" && term != "" && gameId in Keys(index)
    ensures var r := MatchingCheats(index, gameId, term);
      && r.Some?
      && r.value.name == Get(index, gameId).value.name
      && (forall f :: f in r.value.folders ==>
            |f.cheats| > 0 && forall c :: c in f.cheats ==> CheatMatches(c, Lower(term)))
  {
    var game := Get(index, gameId).value;
    var lowered := Lower(term);
    var each := EachMatchingCheats(game.folders, lowered);
    forall f | f in MatchingFolders(game.folders, lowered)
      ensures |f.cheats| > 0 && forall c :: c in f.cheats ==> CheatMatches(c, lowered)
    {
      var i :| 0 <= i < |each| && each[i] == f;
    }
  }

  /** Every matching cheat of a present game is kept, in a folder of the same name. */
  lemma SearchCheatsComplete(index: Index, gameId: string, term: string, i: nat, c: Cheat)
    requires gameId != "" && term != "" && gameId in Keys(index)
    requires i < |Get(index, gameId).value.folders|
    requires c in Get(index, gameId).value.folders[i].cheats && CheatMatches(c, Lower(term))
    ensures exists f :: f in MatchingCheats(index, gameId, term).value.folders
                     && f.folderName == Get(index, gameId).value.folders[i].folderName && c in f.cheats
  {
    var game := Get(index, gameId).value;
    var lowered := Lower(term);
    var each := EachMatchingCheats(game.folders, lowered);
    assert c in each[i].cheats;
    assert each[i] in MatchingFolders(game.folders, lowered);
  }

  /**
   * The kept folders are, in their original order, the folders of the game that
   * have a matching cheat, each with its matching cheats in their original order.
   */
  lemma SearchCheatsOrder(index: Index, gameId: string, term: string)
    requires gameId != "" && term != "" && gameId in Keys(index)
    ensures var kept := MatchingCheats(index, gameId, term).value.folders;
      var folders := Get(index, gameId).value.folders;
      var idx := KeptIndices(EachMatchingCheats(folders, Lower(term)), HasCheats);
      && |idx| == |kept|
      && (forall i, j :: 0 <= i < j < |idx| ==> idx[i] < idx[j])
      && (forall i :: 0 <= i < |kept| ==>
            idx[i] < |folders|
            && kept[i].folderName == folders[idx[i]].folderName
            && kept[i].cheats == Filter(folders[idx[i]].cheats, (c: Cheat) => CheatMatches(c, Lower(term))))
      && (forall i :: 0 <= i < |folders| && HasCheats(MatchingCheatsOf(folders[i], Lower(term))) ==> i in idx)
  {
  }

  /** A present game in which no cheat matches comes back with its name and no folders, not as a miss. */
  lemma SearchCheatsNoMatch(index: Index, gameId: string, term: string)
    requires gameId != "" && term != "" && gameId in Keys(index)
    requires forall f, c :: f in Get(index, gameId).value.folders && c in f.cheats ==> !CheatMatches(c, Lower(term))
    ensures MatchingCheats(index, gameId, term) == Some(Game(Get(index, gameId).value.name, []))
  {
    var game := Get(index, gameId).value;
    var each := EachMatchingCheats(game.folders, Lower(term));
    forall f | f in each
      ensures !HasCheats(f)
    {
      var i :| 0 <= i < |each| && each[i] == f;
      FilterDropsAll(game.folders[i].cheats, (c: Cheat) => CheatMatches(c, Lower(term)));
    }
    FilterDropsAll(each, HasCheats);
  }

  /** Filtering folders commutes with concatenation, so folders keep their relative order. */
  lemma MatchingFoldersAppend(a: seq<Folder>, b: seq<Folder>, term: string)
    ensures MatchingFolders(a + b, term) == MatchingFolders(a, term) + MatchingFolders(b, term)
  {
    var each := EachMatchingCheats(a + b, term);
    var parts := EachMatchingCheats(a, term) + EachMatchingCheats(b, term);
    forall i | 0 <= i < |each|
      ensures each[i] == parts[i]
    {
      if i < |a| {
        assert (a + b)[i] == a[i];
      } else {
        assert (a + b)[i] == b[i - |a|];
      }
    }
    assert each == parts;
    FilterAppend(EachMatchingCheats(a, term), EachMatchingCheats(b, term), HasCheats);
  }

  /** The inner loop of `search_cheats`: the cheats of one folder that match. */
  method KeepMatchingCheats(folder: Folder, term: string) returns (cheats: seq<Cheat>)
    ensures cheats == MatchingCheatsOf(folder, term).cheats
  {
    ghost var matches := (c: Cheat) => CheatMatches(c, term);
    cheats := [];
    var j := 0;
    while j < |folder.cheats|
      invariant 0 <= j <= |folder.cheats|
      invariant cheats == Filter(folder.cheats[..j], matches)
    {
      var c := folder.cheats[j];
      assert folder.cheats[..j + 1][..j] == folder.cheats[..j];
      if Contains(Lower(c.name), term) || Contains(Lower(c.notes), term) || Contains(Lower(c.codes), term) {
        cheats := cheats + [c];
      }
      j := j + 1;
    }
    assert folder.cheats[..j] == folder.cheats;
  }

  lemma EachMatchingCheatsStep(folders: seq<Folder>, i: nat, term: string)
    requires i < |folders|
    ensures EachMatchingCheats(folders[..i + 1], term)
         == EachMatchingCheats(folders[..i], term) + [MatchingCheatsOf(folders[i], term)]
  {
    assert folders[..i + 1][..i] == folders[..i];
  }

  /** The outer loop of `search_cheats`: each folder's matching cheats, empty results dropped. */
  method KeepMatchingFolders(folders: seq<Folder>, term: string) returns (kept: seq<Folder>)
    ensures kept == MatchingFolders(folders, term)
  {
    kept := [];
    var i := 0;
    while i < |folders|
      invariant 0 <= i <= |folders|
      invariant kept == Filter(EachMatchingCheats(folders[..i], term), HasCheats)
    {
      var folder := folders[i];
      var cheats := KeepMatchingCheats(folder, term);
      EachMatchingCheatsStep(folders, i, term);
      if |cheats| > 0 {
        kept := kept + [Folder(folder.folderName, cheats)];
      }
      i := i + 1;
    }
    assert folders[..i] == folders;
  }

  /** `search_cheats`: nested loops over the folders and their cheats. */
  method SearchCheats(index: Index, gameId: string, term: string) returns (r: Option<Game>)
    ensures r == MatchingCheats(index, gameId, term)
    ensures gameId !in Keys(index) ==> r == None
  {
    if gameId == "" || term == "" {
      return Get(index, gameId);
    }
    var lowered := Lower(term);
    var found := Get(index, gameId);
    if found.None? {
      return None;
    }
    var game := found.value;
    var folders := KeepMatchingFolders(game.folders, lowered);
    r := Some(Game(game.name, folders));
  }
}
