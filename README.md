# NDS cheat browser core, modelled in Dafny

This project models the core of the NDS cheat browser:

- the cheat index built from a cheat database (`parse_cheats`, `get_text`);
- the two case-insensitive searches over the index (`search_games`, `search_cheats`);
- the JAMCRC fingerprint of a ROM header (`calculate_jamcrc`);
- the GameID built from the `ndstool -i` output and the fingerprint (`extract_game_code`, `generate_gameid`).

Each loop of the source is a Dafny `method`. Each method is proved equal to a specification function. The properties the source promises are proved about those functions as lemmas.

Modules:

- `Wrappers`: `Option`.
- `Seqs`: order-preserving filter and first occurrences.
- `Text`: the Python string operations used by the core.
  - `strip()` uses the exact `str.isspace` set.
  - `lower()` and `upper()` cover ASCII letters only.
  - Also modelled: `in`, `replace(' ', '')`, `split(sep)`, `splitlines()`.
- `Dict`: Python's insertion-ordered `dict`.
  - Entries are a sequence of pairs with distinct keys.
  - Assigning to a present key keeps its place; a new key goes last.
- `CheatUtils`: the cheat index and both searches.
  - The database is an abstract tree of game, folder and cheat records.
  - A text field is `None` when its tag is absent and `Some(t)` otherwise.
- `HeaderCrc32`: CRC-32 written out in the bitwise form of the CRC whose table-driven sample code is section 8 of RFC 1952.
  - Reflected polynomial 0xEDB88320.
  - Register preset to 0xFFFFFFFF; final XOR with 0xFFFFFFFF.
  - Then the 32-bit complement on Python integers and `08X` formatting.
- `GenerateGameId`: the game-code scan over the tool output and the all-or-nothing GameID assembly.
- `HostLookup`: the lookup of a generated GameID in the index, as the desktop browser writes it and corrected (see Findings).

The docstring of `extract_game_code` (utils/generate_gameid.py:16) shows a 4-character code such as 'IPKE'. The code itself promises less, and the model follows the code:

- A returned game code is at most 4 characters, not exactly 4. `[:4]` of a shorter stripped field is shorter.
- The code can be empty. `generate_gameid` then rejects it.
- `search_cheats` on a present game where nothing matches returns the game with no folders.

## Model

| member | source | states |
|---|---|---|
| Text.Strip | utils/cheat_utils.py:31 | `strip()` result is no longer than its input and has no whitespace at either end |
| Text.StripRemovesOnlySpace | utils/cheat_utils.py:31 | the stripped text is a slice of the input with only whitespace before and after it; it is empty exactly when the input is all whitespace |
| Text.StripIdempotent | utils/cheat_utils.py:31 | stripping twice changes nothing more |
| Text.StripNoEdgeSpace | utils/cheat_utils.py:31 | a string without whitespace at either end is returned unchanged |
| Text.Lower | utils/cheat_utils.py:107 | `lower()` keeps the length, turns each capital 'A'..'Z' into its small letter (code point + 32), leaves no upper-case letter and changes nothing else |
| Text.Upper | utils/generate_gameid.py:38 | `upper()` keeps the length, turns each small letter 'a'..'z' into its capital (code point - 32), leaves no lower-case letter and changes nothing else |
| Text.Contains | utils/cheat_utils.py:110 | `sub in s`: the empty string is in every string, and a string longer than `s` is never in it |
| Text.ContainsIff | utils/cheat_utils.py:110 | `sub in s` holds exactly when `sub` occurs at some position of `s` |
| Text.RemoveSpaces | utils/cheat_utils.py:50 | `replace(' ', '')` leaves no space and never lengthens |
| Text.RemoveSpacesAppend | utils/cheat_utils.py:50 | space removal distributes over concatenation |
| Text.RemoveSpacesNoSpace | utils/cheat_utils.py:50 | a string without spaces is unchanged, so normalising twice is normalising once |
| Text.Split | utils/generate_gameid.py:33 | `split('\t')` yields one more field than there are tabs, none holding a tab |
| Text.JoinSplit | utils/generate_gameid.py:33 | joining the fields of a split gives back the line |
| Text.SplitJoin | utils/generate_gameid.py:33 | splitting tab-free fields joined by tabs gives back the fields |
| Text.SplitLines | utils/generate_gameid.py:29 | `splitlines()` yields lines without line boundaries, and none at all only for empty text |
| Text.LineEnds | utils/generate_gameid.py:29 | there is one consumed terminator per line of `splitlines()` |
| Text.SplitLinesRoundTrip | utils/generate_gameid.py:29 | the lines, each followed by its terminator, concatenate back to the text |
| Text.LineEndsAreTerminators | utils/generate_gameid.py:29 | every line but the last ends in `"\r\n"` or one line boundary; the last one ends the same way or, when not empty, at the end of the text; a `"\r"` followed by `"\n"` is never a terminator on its own |
| Seqs.Filter | utils/cheat_utils.py:107-112 | the filtered sequence holds exactly the elements satisfying the test |
| Seqs.KeptIndices | utils/cheat_utils.py:107-112 | the kept elements sit at strictly increasing positions of the input, and every satisfying position is kept |
| Seqs.FilterAppend | utils/cheat_utils.py:134-146 | filtering commutes with concatenation |
| Seqs.FilterDropsAll | utils/cheat_utils.py:142 | a filter that no element passes yields nothing |
| Seqs.FilterKeepsAll | utils/cheat_utils.py:54-66 | a filter that every element passes keeps the whole sequence |
| Seqs.FirstOccurrences | utils/cheat_utils.py:86-89 | the distinct elements, each once, exactly those of the input |
| Seqs.FirstOccurrencesOrder | utils/cheat_utils.py:86-89 | the elements come in the order of their first occurrence in the input: the key order of a dict filled in that order |
| Seqs.IndexOf | utils/cheat_utils.py:86-89 | the position of the first occurrence of an element: it holds the element and no earlier position does |
| Dict.Get | utils/cheat_utils.py:127 | `d.get(k)` is missing exactly when `k` is not a key, and otherwise the value stored under `k` |
| Dict.Put | utils/cheat_utils.py:86 | `d[k] = v` grows the dict by one entry exactly when `k` is new |
| Dict.PutSpec | utils/cheat_utils.py:86-89 | after `d[k] = v`, `k` maps to `v` and other keys keep their values; an existing key keeps its place and a new key goes last |
| Dict.FilterKeepsDistinctKeys | utils/cheat_utils.py:107-112 | the matching entries still form a dict |
| Dict.FilterPrefixLacksKey | utils/cheat_utils.py:109-111 | when the loop reaches an entry, its key is not yet in the result |
| Dict.FilterStepPut | utils/cheat_utils.py:109-111 | copying the next entry when it passes the test extends the filtered dict by that entry under its own key |
| Dict.FilterKeepsOrder | utils/cheat_utils.py:107-112 | the matching entries keep the input's iteration order |
| CheatUtils.GetText | utils/cheat_utils.py:18-32 | an absent tag gives `""`; a present tag gives its text with a whitespace prefix and a whitespace suffix cut off, with no whitespace left at either end, and `""` exactly when the text is all whitespace; never a missing value |
| CheatUtils.ToCheats | utils/cheat_utils.py:58-65 | one cheat per record, in document order, its fields taken from `name`, `note` and `codes` |
| CheatUtils.ToFolders | utils/cheat_utils.py:69-84 | one folder per folder record, in document order |
| CheatUtils.GameOf | utils/cheat_utils.py:49-84 | a game is its stripped name, then a "General" folder when there are loose cheats, then one folder per folder record in order |
| CheatUtils.GameKey | utils/cheat_utils.py:50 | a game's key holds no space, is no longer than its stripped gameid text, and is empty when the tag is absent |
| CheatUtils.GameKeys | utils/cheat_utils.py:50 | each game's key is its gameid text with the spaces removed |
| CheatUtils.IndexGames | utils/cheat_utils.py:47-89 | no key of the index contains a space |
| CheatUtils.CheatIndex | utils/cheat_utils.py:44-45 | no tree gives the empty index; no key contains a space |
| CheatUtils.IndexKeyOrder | utils/cheat_utils.py:86-89 | the keys are the distinct normalised gameids, in order of first appearance |
| CheatUtils.LastWriteWins | utils/cheat_utils.py:86-89 | a key shared by several games holds the last of them |
| CheatUtils.IndexKeysFromDataset | utils/cheat_utils.py:47-50 | every key comes from some game record |
| CheatUtils.FolderLayout | utils/cheat_utils.py:54-84 | "General" comes first when there are loose cheats and holds them in order; every explicit folder follows in order, empty ones too, named by its `name` tag |
| CheatUtils.GeneralFolderCount | utils/cheat_utils.py:54-66 | with no explicit folder called "General", there is exactly one "General" folder when there are loose cheats and none otherwise |
| CheatUtils.ParseFolder | utils/cheat_utils.py:69-84 | the loop over a folder's cheats builds that folder |
| CheatUtils.ParseFolders | utils/cheat_utils.py:69-84 | the loop over the folder records builds the explicit folders in order |
| CheatUtils.ParseGame | utils/cheat_utils.py:48-84 | one game record gives its space-free key and its game |
| CheatUtils.ParseCheats | utils/cheat_utils.py:34-91 | the loop over the game records builds the index; no key contains a space |
| CheatUtils.MatchingGames | utils/cheat_utils.py:104-105 | an empty term returns the index unchanged |
| CheatUtils.SearchGamesSoundComplete | utils/cheat_utils.py:107-112 | a non-empty term keeps exactly the entries whose lower-cased name or GameID contains the lower-cased term, values unchanged, in the input order |
| CheatUtils.SearchGames | utils/cheat_utils.py:93-112 | the loop copying matching entries computes the search; with a non-empty term, an entry is kept exactly when it matches |
| CheatUtils.EachMatchingCheats | utils/cheat_utils.py:134-141 | each folder keeps its name and only its matching cheats |
| CheatUtils.MatchingFolders | utils/cheat_utils.py:134-146 | kept folders have at least one cheat and only matching ones; every folder with a match is kept with its matching cheats |
| CheatUtils.MatchingCheats | utils/cheat_utils.py:126-132 | an absent GameID gives `{}` (a miss) |
| CheatUtils.SearchCheatsUnfiltered | utils/cheat_utils.py:126-127 | with an empty GameID or term, the game comes back unfiltered, or `{}` when absent |
| CheatUtils.SearchCheatsSound | utils/cheat_utils.py:134-151 | for a present game and a non-empty term, the name passes through, kept folders are non-empty and every kept cheat matches |
| CheatUtils.SearchCheatsComplete | utils/cheat_utils.py:134-146 | every matching cheat of the game is kept, in a folder of the same name |
| CheatUtils.SearchCheatsOrder | utils/cheat_utils.py:134-151 | kept folders follow the game's folder order, each with its matching cheats in order, and every folder with a match is kept |
| CheatUtils.SearchCheatsNoMatch | utils/cheat_utils.py:134-151 | a present game with no matching cheat gives the game with no folders, not a miss |
| CheatUtils.MatchingFoldersAppend | utils/cheat_utils.py:134-146 | filtering folders commutes with concatenation |
| CheatUtils.KeepMatchingCheats | utils/cheat_utils.py:137-141 | the inner loop keeps exactly the folder's matching cheats, in order |
| CheatUtils.KeepMatchingFolders | utils/cheat_utils.py:134-146 | the outer loop keeps the non-empty filtered folders, in order |
| CheatUtils.SearchCheats | utils/cheat_utils.py:114-151 | the nested loops compute the search; an absent GameID gives `{}` |
| HeaderCrc32.Crc32 | utils/header_crc32.py:24 | `binascii.crc32`: register preset and final XOR with 0xFFFFFFFF, so the empty input gives 0 |
| HeaderCrc32.UpdateAppend | utils/header_crc32.py:24 | feeding data in two pieces equals feeding it at once |
| HeaderCrc32.Crc32CheckValue | utils/header_crc32.py:24 | CRC-32 of "123456789" is the standard check value 0xCBF43926 |
| HeaderCrc32.Complement32 | utils/header_crc32.py:26 | `(~x) & 0xFFFFFFFF` lies in [0, 2^32) and is 2^32 - 1 - x for a 32-bit x |
| HeaderCrc32.Complement32Involutive | utils/header_crc32.py:26 | complementing the JAMCRC gives back the CRC-32 |
| HeaderCrc32.Hex | utils/header_crc32.py:28 | hex rendering yields at least one digit, all upper-case hexadecimal |
| HeaderCrc32.HexLength | utils/header_crc32.py:28 | a value below 16^k has at most k digits |
| HeaderCrc32.ParseHexOfHex | utils/header_crc32.py:28 | reading the digits back gives the value |
| HeaderCrc32.ParseHexZeros | utils/header_crc32.py:28 | zero padding does not change the value read |
| HeaderCrc32.Format08X | utils/header_crc32.py:28 | `08X` gives at least 8 upper-case hex digits that read back as the value |
| HeaderCrc32.Format08XSpec | utils/header_crc32.py:28 | a 32-bit value formats as exactly 8 upper-case hex digits that read back as the value |
| HeaderCrc32.ReadPrefix | utils/header_crc32.py:19 | `f.read(n)` gives the first `min(n, len)` bytes, or everything for a negative `n` |
| HeaderCrc32.CalculateJamcrc | utils/header_crc32.py:6-28 | no value exactly when nothing is read; otherwise exactly 8 upper-case hex digits |
| HeaderCrc32.JamcrcRoundTrip | utils/header_crc32.py:24-28 | the digits read back and complemented give the CRC-32 of the bytes read |
| HeaderCrc32.OnlyHeaderMatters | utils/header_crc32.py:19 | bytes after the first `header_size` have no effect |
| HeaderCrc32.JamcrcExample | utils/header_crc32.py:15-28 | a file holding "123456789" has the fingerprint "340BC6D9" |
| GenerateGameId.Take4 | utils/generate_gameid.py:37 | `[:4]` is a prefix of at most 4 characters, the whole string when shorter |
| GenerateGameId.LineCode | utils/generate_gameid.py:30-38 | a line yields a code exactly when it mentions "Game code" and has at least 3 tab fields; the code is the first 4 characters (all, when fewer) of the stripped third field, each upper-cased; so at most 4 characters, with no lower-case letter and no leading whitespace |
| GenerateGameId.FirstCode | utils/generate_gameid.py:29-40 | no code exactly when no line yields one; a found code has the shape above |
| GenerateGameId.FirstCodeIsFirst | utils/generate_gameid.py:29-38 | the found code is that of the first qualifying line; earlier lines are skipped |
| GenerateGameId.GameCode | utils/generate_gameid.py:29-46 | no code exactly when the tool gave no output or no line yields one; a found code has the shape above |
| GenerateGameId.ExtractGameCode | utils/generate_gameid.py:8-46 | the scan with its early return computes the first code; a failed tool run gives none |
| GenerateGameId.ShortLineSkipped | utils/generate_gameid.py:33-34 | a line with fewer than 3 tab fields is passed over |
| GenerateGameId.SplitThreeFields | utils/generate_gameid.py:33 | three tab-free fields joined by tabs split back into those fields |
| GenerateGameId.ExampleLineCode | utils/generate_gameid.py:31-38 | the documented example line yields "IPKE" |
| GenerateGameId.GameIdOf | utils/generate_gameid.py:58-64 | all or nothing: a GameID exactly when both the code and the JAMCRC are present and non-empty |
| GenerateGameId.GameId | utils/generate_gameid.py:58-64 | a GameID exactly when the code is present and non-empty and the ROM is not empty; 10 to 13 characters |
| GenerateGameId.GenerateGameId | utils/generate_gameid.py:48-64 | the method with its early exits computes the GameID |
| GenerateGameId.SplitSpacedPair | utils/generate_gameid.py:64 | splitting `code + " " + jamcrc` on the space gives both parts when neither holds a space |
| GenerateGameId.RemoveSpacesSpacedPair | utils/generate_gameid.py:64 | removing the spaces of `code + " " + jamcrc` leaves the code's other characters followed by the JAMCRC |
| GenerateGameId.JamcrcHasNoSpace | utils/header_crc32.py:28 | the JAMCRC part is 8 characters without a space |
| GenerateGameId.GameIdShape | utils/generate_gameid.py:64 | a GameID is a non-empty code of at most 4 characters, one space and the 8 JAMCRC digits; at most 13 characters; it splits back and normalises to the index-key convention |
| GenerateGameId.ExampleGameId | utils/generate_gameid.py:58-64 | code "IPKE" with header "123456789" gives "IPKE 340BC6D9" |
| HostLookup.LookupAsWritten | gui/cheat_browser.py:202 | `cheat_data.get(gameid, {})` finds a game exactly when the GameID is a key; a GameID with a space finds nothing in an index without spaced keys |
| HostLookup.NormalizedLookup | gui/cheat_browser.py:202 | the corrected lookup finds a game exactly when the GameID without spaces is a key, and agrees with the lookup as written on space-free GameIDs |
| HostLookup.GeneratedIdNeverFound | gui/cheat_browser.py:202 | looking a generated GameID up as written misses in every index built by `parse_cheats` |
| HostLookup.NormalizedLookupFinds | gui/cheat_browser.py:202 | looking it up with its spaces removed finds the game stored last under that key |
| HostLookup.GeneratedIdAsDatasetText | utils/cheat_utils.py:50 | a game whose gameid text is the generated GameID is stored under that GameID without spaces |

## Left out

- `load_cheats` and XML parsing are left out. The index is built from an abstract tree, with the first child of each tag as an optional text.
- Opening and reading the ROM and the catch-all exception path of `calculate_jamcrc` are left out. The file is its byte contents, and a read failure is not modelled.
- Running `ndstool` is left out. Its output is a parameter. `None` stands for the two failures `extract_game_code` catches: a missing tool and a non-zero exit (utils/generate_gameid.py:41-46).
- GenerateGameId.GameCode: other failures of `subprocess.run` are not modelled. Examples are a `PermissionError` for a non-executable `ndstool` and a decoding error of the output under `text=True`. In the source these escape `generate_gameid` as exceptions.
- Logging and messages to stderr have no effect on results and are left out.
- Text.Lower, Text.Upper: ASCII letters only. Python's full Unicode case mapping is left out; Unicode `upper()` can even lengthen a code.
- `binascii.crc32` is replaced by the bitwise form of the CRC whose table-driven sample code is section 8 of RFC 1952. The table-driven form is not proved equivalent, because bit-vector linearity proofs are beyond the solver budget.
- HeaderCrc32.Complement32 works on Python integers. Its agreement with bit-vector `!` is not proved, for the same reason.
- `app.py` looks cheats up by the bare 4-character code (app.py:46-51). Keys are normalised GameIDs, so that lookup too misses whenever the dataset stores full GameIDs. This is host behaviour outside the core.
- The desktop UI (`gui/cheat_browser.py` beyond its GameID lookup), `launcher.py` and the browser script `static/js/main.js` are not part of this model.
- Python's `dict` is modelled as a value. The loops build new dictionaries and never mutate their inputs, so no aliasing is lost.

## Findings

| source | as written | input that shows it | evidently intended | confidence | as-written member | corrected member |
|---|---|---|---|---|---|---|
| gui/cheat_browser.py:202 | the index is queried with the generated GameID, which holds a space, but `parse_cheats` removes every space from keys | a ROM with game code "IPKE" and a database entry whose gameid is "IPKE 340BC6D9": the key is "IPKE340BC6D9" and the lookup of "IPKE 340BC6D9" misses | remove the spaces from the GameID before the lookup, as the index builder does | not executed; high | HostLookup.GeneratedIdNeverFound | HostLookup.NormalizedLookupFinds |
