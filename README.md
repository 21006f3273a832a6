# Umbil CPD log: a verified model of the log, goal and storage core

Umbil is a small Streamlit tool for doctors: a clinical question gets an AI
answer, and the interaction can be logged as a Continuing Professional
Development (CPD) entry with a reflection and comma-separated tags. While a
question is entered, the home page also offers to promote every tag that has
occurred exactly three times across the log to a Personal Development Plan
(PDP) goal; the offers are not shown without a question. Both collections are
kept in memory for the session and mirrored, whole, to two CSV files
(`cpd_log.csv`, `pdp_goals.csv`). A settings page clears either collection
after a confirmation click.

This project models that core in Dafny:

- `text.dfy` (module `Text`): the Python string operations the core uses
  (`strip`, `lower`, `split` on one character, `join`), restricted to ASCII,
  with the lemmas that `split` and `join` undo each other.
- `storage.dfy` (module `Storage`): the records, the state of a backing
  file (`Absent`, `Empty`, or `Written` with a header and rows), the `Tags`
  codec (`"|".join` to save, the three-way rule to load) and a `Disk` class
  whose methods are `load_cpd`, `save_cpd`, `load_pdp`, `save_pdp` and
  `os.remove`.
- `session.dfy` (module `Session`): the session state, a class holding the
  log, the goals, the two confirmation flags and the disk. A session that
  starts on the home page loads both collections from their files. A session
  that starts on the CPD overview page gets an empty log there, so the home
  page's load-if-missing guard never reads the CPD file and only the goals
  are loaded.
- `home.dfy` (module `Home`): tag normalisation, logging an entry, the tag
  counter and the exactly-three offer, goal promotion, the placeholder
  answer and the display form of a tag list.
- `settings.dfy` (module `Settings`): the press / confirm / cancel handlers
  for clearing the log and the goals.

The disk is modelled as what the CSV reader would give back, not as bytes.
Python's `eval`, applied by the loader to a `[`-prefixed tag field, is a
function parameter (`Evaluator`) whose results the model does not fix.
Timestamps, the AI reply and whether an API key is configured are inputs.

## Behaviour worth knowing

The following behaviours of the program are stated and proved in the model:

- Tag normalisation keeps empty tokens (`"a,,b"` gives three tags, one of
  them empty); it does not drop them.
- Saving and loading the log is not lossless. A one-tag list whose tag
  holds no `|` and does not start with `[` is saved as the bare tag and loads
  back as no tags (a lone `[`-tag is handed to `eval` instead). Empty tags and
  tags holding `|` do not survive either: a `|` inside a tag splits it, so the
  input `a|b, c` is saved as `a|b|c` and loads as the three tags `a`, `b`,
  `c`. `SaveLoadCpdIff` states exactly when a saved log comes back
  unchanged.
- Saving a loaded log is not idempotent: `t|` loads as `[t]`, which then
  saves as `t` and reloads as `[]`.
- A session that opens the CPD overview page first starts with an empty
  log without reading `cpd_log.csv`; the first entry logged afterwards
  overwrites the file with a one-entry log (`LogAfterCpdPageFirst`).
- The offer test is strict equality with 3. Promoting a tag neither removes
  the offer nor checks for an existing goal, so the same topic can be
  promoted twice.

## Model

| member | source | states |
|---|---|---|
| `Text.Strip` | Home.py:99 | `strip()` returns a whitespace-free-at-both-ends slice of its input, everything cut away is whitespace, and a stripped string is returned unchanged |
| `Text.Lower` | Home.py:99 | `lower()` keeps the length and lower-cases each character on its own |
| `Text.LowerIsLowerCase` | Home.py:99 | lower-casing gives a lower-case string and is idempotent |
| `Text.LowerKeeps` | Home.py:99 | lower-casing keeps a stripped string stripped and adds no non-letter character |
| `Text.Split` | storage.py:17 | `split(c)` yields at least one piece |
| `Text.SplitPiecesFree` | storage.py:17 | no piece of `split(c)` contains `c` |
| `Text.Join` | storage.py:32 | `sep.join(parts)`: the first piece begins the result; `SplitJoin` and `JoinSplit` show it is the inverse of `split` |
| `Text.JoinConcat` | storage.py:32 | joining two non-empty lists one after the other puts the separator between their joins |
| `Text.SplitCount` | Home.py:99 | `split(c)` yields one more piece than there are occurrences of `c` |
| `Text.SplitJoin` | storage.py:17 | splitting a join on the same character gives the pieces back when no piece holds it |
| `Text.JoinSplit` | Home.py:99 | joining the pieces of a split gives the original string back |
| `Text.StripSurrounded` | storage.py:17 | a non-empty stripped slice with only whitespace around it is exactly what `strip()` returns |
| `Storage.EncodeTags` | storage.py:32 | `"\|".join(tags)`: no tags give `""`; for any other list, splitting the field on `\|` gives the pieces of every tag in order (`Pieces`), which are the tags themselves when none holds `\|` |
| `Storage.SplitJoinedPieces` | storage.py:32 | splitting a `\|`-join on `\|` gives the pieces of every tag, in order |
| `Storage.JoinPieces` | storage.py:32 | joining all the pieces with `\|` gives the same field as joining the tags |
| `Storage.PiecesFree` | storage.py:32 | no piece contains `\|` |
| `Storage.PiecesOfPlainTags` | storage.py:32 | a list of `\|`-free tags is its own list of pieces |
| `Storage.CleanTokens` | storage.py:17 | the stripped, non-empty tokens in order: never more than the tokens, each non-empty and stripped, and clean tokens come through unchanged |
| `Storage.CleanTokensAppend` | storage.py:17 | the filter works piece by piece: filtering a concatenation is the concatenation of the filtered parts |
| `Storage.CleanTokensSingle` | storage.py:17 | one token yields itself stripped, or nothing when it is all whitespace; with `CleanTokensAppend` this fixes the filter on every list |
| `Storage.CleanTokensAllKept` | storage.py:17 | tokens that all strip to non-empty strings are all kept, stripped, in order |
| `Storage.DecodeTags` | storage.py:16-17 | a field holding `\|` decodes to at most one tag per piece, each non-empty, stripped and free of `\|`; otherwise a field opening with `[` decodes to what `eval` gives and any other field to no tags |
| `Storage.DecodeJoined` | storage.py:17 | a field of two or more `\|`-separated pieces decodes to the filtered pieces, stripped, blanks dropped, order kept |
| `Storage.DecodeSkipsBlankPiece` | storage.py:17 | `a\|\|b` decodes to `[a, b]` for clean `a` and `b` |
| `Storage.UncleanTagLost` | storage.py:17-32 | a list holding an empty tag or a tag with `\|`, or a list of two or more with any unclean tag, never survives encode then decode |
| `Storage.DecodeEncoded` | storage.py:17-32 | once the saved field holds a `\|` (two or more tags, or one tag holding `\|`), it loads as the stripped non-blank pieces of all the tags, in order |
| `Storage.InnerBarSplitsTag` | storage.py:17-32 | clean tags `a\|b` and `c` are saved as `a\|b\|c` and load as the three tags `a`, `b`, `c` |
| `Storage.TagsRoundTrip` | storage.py:17-32 | two or more clean tags survive encode then decode unchanged |
| `Storage.SingleTagLost` | storage.py:17-32 | a single tag without `\|` and not opening with `[` is encoded bare and decodes to no tags |
| `Storage.RoundTripIffNotSingle` | storage.py:17-32 | for clean tags, decode after encode is the identity exactly when the list does not have one element |
| `Storage.ReloadNotIdempotent` | storage.py:17-32 | the field `t\|` loads as `[t]`, whose re-save loads as `[]` |
| `Storage.EncodeRow` | storage.py:31-32 | the row copies timestamp, query, response and reflection, and its `Tags` field is `EncodeTags` of the tags, which splits back into them when none holds `\|` |
| `Storage.DecodeRow` | storage.py:16-18 | the entry copies the row's four text fields and its tags are the row's `Tags` field decoded by the three-way rule (`DecodeTags`); a `\|` field gives clean tags and an empty field no tags |
| `Storage.EncodeSplitsBack` | storage.py:32 | splitting the `\|`-joined field gives back any non-empty list of tags none of which holds `\|` |
| `Storage.RowRoundTripIff` | storage.py:16-32 | one entry survives a save and a load exactly when its tags survive the tag codec |
| `Storage.SavedCpd` | storage.py:21-33 | saving no entries leaves an empty file; otherwise a written file with the CPD header and, in order, the encoded row of each entry |
| `Storage.LoadedCpd` | storage.py:8-19 | a missing or empty file loads as no entries; otherwise one entry per row |
| `Storage.SaveLoadCpdIff` | storage.py:8-33 | load after save returns the log exactly when every entry's tags survive the tag codec |
| `Storage.SaveLoadCpd` | storage.py:8-33 | a log whose entries have no tags or two or more clean tags survives save then load |
| `Storage.SingleTagEntryLost` | storage.py:8-33 | an entry with one plain tag reloads with no tags and its other fields intact |
| `Storage.SavedPdp` | storage.py:44-54 | saving no goals leaves an empty file; otherwise the PDP header and the goals in order, which load back unchanged |
| `Storage.LoadedPdp` | storage.py:35-42 | a missing or empty file loads as no goals |
| `Storage.Disk.CpdExists` | storage.py:9 | `os.path.exists` for the CPD file: true exactly when the file is not absent |
| `Storage.Disk.PdpExists` | storage.py:36 | `os.path.exists` for the PDP file: true exactly when the file is not absent |
| `Storage.Disk.LoadCpd` | storage.py:8-19 | a missing or empty file gives `[]`; otherwise row by row, in order, each row's tags decoded |
| `Storage.Disk.SaveCpd` | storage.py:21-33 | the CPD file becomes the saved form of the whole list; the PDP file is untouched |
| `Storage.Disk.LoadPdp` | storage.py:35-42 | a missing or empty file gives `[]`; otherwise the rows in order |
| `Storage.Disk.SavePdp` | storage.py:44-54 | the PDP file becomes the saved form of the whole list; the CPD file is untouched |
| `Storage.Disk.RemoveCpd` | pages/settings.py:22-23 | removing an existing CPD file leaves it absent and the PDP file untouched |
| `Storage.Disk.RemovePdp` | pages/settings.py:41-42 | removing an existing PDP file leaves it absent and the CPD file untouched |
| `Session.SessionState.constructor` | Home.py:33-37 | the session starts with both collections loaded from their files and no confirmation pending |
| `Session.SessionState.OpenedOnCpdPage` | pages/cpd.py:11-12 | a session opened on the CPD overview page starts with an empty log without reading its file; only the goals are loaded |
| `Home.NormaliseTag` | Home.py:99 | the tag is the token stripped and then lower-cased: stripped and lower-case, holding no `,` or `\|` the token did not, and empty exactly when the token is all whitespace |
| `Home.NormaliseTags` | Home.py:99 | empty input gives no tags; otherwise one tag per comma-separated token (commas plus one), in order, each normalised, all stripped, lower-case and comma-free |
| `Home.BlankTokenKept` | Home.py:99 | a whitespace-only token stays in the list as an empty tag |
| `Home.NormalisedTagsSurviveReload` | Home.py:99-102 | input with a comma, no `\|` and no blank token gives tags that survive save and load |
| `Home.SingleTagInputLost` | Home.py:99-102 | input of a single token gives one tag, which save and load turn into no tags |
| `Home.Respond` | Home.py:79-84 | with a key the provider's reply is used; without one the placeholder quotes the question |
| `Home.LogEntry` | Home.py:92-102 | exactly one entry with the given fields and normalised tags is appended, the whole log is saved, the goals and flags are untouched |
| `Home.LogAfterCpdPageFirst` | Home.py:34-35 | in a session opened on the CPD overview page, the first logged entry leaves the CPD file holding that one entry, whatever it held before |
| `Home.AllTags` | Home.py:106 | a tag is in the flattened list exactly when some entry carries it |
| `Home.OccurrencesAppend` | Home.py:106-107 | logging an entry adds its occurrences of a tag, duplicates included, to that tag's count |
| `Home.FourthOccurrenceEndsOffer` | Home.py:106-108 | a tag with count 3 that is logged again has a count above 3 and is no longer offered |
| `Home.FirstIndex` | Home.py:107 | the first position of a tag: it holds the tag and no earlier position does |
| `Home.OrderStep` | Home.py:107 | a tag first met at position `i` keeps the keys in first-occurrence order when appended |
| `Home.CountTags` | Home.py:107 | the counter holds every tag of the list and nothing else, with its number of occurrences, keys in first-occurrence order |
| `Home.ExactlyThree` | Home.py:107-108 | the keys whose count is exactly 3, keeping the key order |
| `Home.SuggestGoals` | Home.py:105-108 | a tag is offered exactly when it occurs 3 times across all entries, each offered tag once, in first-occurrence order |
| `Home.PromoteGoal` | Home.py:109-112 | exactly one goal with the offered tag is appended, the whole goal list is saved, the log and its file are untouched |
| `Home.DisplayTags` | Home.py:119 | a non-list shows as `""`; a list shows as nothing exactly when it is empty; one tag shows as its label alone |
| `Home.DisplayAppend` | Home.py:119 | one more tag appends `" \| "`, the emoji and the tag to the display |
| `Home.LabelClean` | Home.py:119 | a label of a clean tag is non-empty, stripped and free of `\|` |
| `Home.JoinPadded` | Home.py:119 | joining labels with `" \| "` equals joining the space-padded labels with `\|` |
| `Home.DisplayReadsBack` | Home.py:119 | split at `\|` and stripped, the display of clean tags gives back exactly the labels, in order |
| `Settings.PressClearCpd` | pages/settings.py:12-13 | only the CPD confirmation flag is raised; collections and files are unchanged |
| `Settings.ConfirmClearCpd` | pages/settings.py:19-25 | the log is empty, the CPD file is absent, the flag is lowered; goals, their file and the other flag are untouched |
| `Settings.CancelClearCpd` | pages/settings.py:27-28 | only the CPD flag is lowered |
| `Settings.PressClearPdp` | pages/settings.py:31-32 | only the PDP confirmation flag is raised; collections and files are unchanged |
| `Settings.ConfirmClearPdp` | pages/settings.py:38-44 | the goals are empty, the PDP file is absent, the flag is lowered; the log, its file and the other flag are untouched |
| `Settings.CancelClearPdp` | pages/settings.py:46-47 | only the PDP flag is lowered |
| `Settings.ReloadAfterClearCpd` | pages/settings.py:19-24 | after clearing the log, loading it gives `[]` and the goals load as before |
| `Settings.ReloadAfterClearPdp` | pages/settings.py:38-43 | after clearing the goals, loading them gives `[]` and the log loads as before |

## Left out

- The AI call (`requests.post` to the provider, the JSON handling and the error strings) is network I/O; its reply, answer or error text, is an input of `Home.Respond`.
- API key lookup from the environment, `.env` and Streamlit secrets is environment I/O; only whether a key exists is an input.
- Page layout, widgets, the top bar, `ui.py`, `topbar.py` and the tables of `pages/cpd.py` and `pages/pdp.py` only render or navigate. The session set-up of `pages/cpd.py` is modelled by `OpenedOnCpdPage`. `pages/pdp.py:12-13` loads the goals when the session lacks them, the same load as Home.py:36-37, which the `SessionState` constructors cover.
- `umbil_cpd_app.py` is a separate, older app and is not modelled. It calls the OpenAI API (umbil_cpd_app.py:29-39) and appends entries without tags to an in-memory log that it never saves (umbil_cpd_app.py:49-57). A button click is modelled as a method call. The settings page renders two buttons labelled "Cancel" without keys, a widget-identity matter the model does not cover.
- The pandas tables and the `to_csv` downloads are library calls. Only the tag display projection is modelled.
- The CSV byte format (quoting, escaping, line endings) belongs to Python's `csv` module. A file is modelled by the rows the reader would return.
- Rows with a missing `Tags` column or missing fields cannot come from `save_cpd`, so they are not modelled. The loader's `row.get("Tags", "")` default is not modelled either.
- `Storage.DecodeTags`: the `eval` branch is an opaque `Evaluator` parameter returning a list of strings. What Python's `eval` does with arbitrary text, non-list results included, is not modelled.
- Timestamps from `datetime.now()` are clock reads and are inputs.
- `Text.Strip`, `Text.Lower`: whitespace and case mapping are ASCII only. Python's Unicode `strip()`/`lower()` also act on non-ASCII characters.
- Write failures, partial writes and concurrent sessions are not modelled; every save succeeds.
