/**
 * The persistence store: two flat record collections, CPD entries and PDP
 * goals, each kept in its own CSV file. A file is modelled by what the CSV
 * module would read back from it (no file, an empty file, or a header and
 * rows); quoting and escaping are the CSV library's business and are not
 * modelled. The `Tags` list of a CPD entry is stored as one string field.
 */
module Storage {
  import opened Text

  /** Header written by `save_cpd`, in this order. */
  const CpdFields: seq<string> := ["Timestamp", "Query", "Response", "Reflection", "Tags"]
  /** Header written by `save_pdp`, in this order. */
  const PdpFields: seq<string> := ["Topic", "Created"]

  /** A CPD entry as it lives in the session: its tags are a list. */
  datatype CpdEntry = CpdEntry(timestamp: string, query: string, response: string,
                               reflection: string, tags: seq<string>)

  /** A CPD entry as one CSV row: its tags are a single string field. */
  datatype CpdRow = CpdRow(timestamp: string, query: string, response: string,
                           reflection: string, tags: string)

  /** A PDP goal; it is stored field for field. */
  datatype PdpGoal = PdpGoal(topic: string, created: string)

  /** The state of one backing file. `Empty` is a file that exists and holds
      nothing, not even a header; `Written` is a header row and data rows. */
  datatype FileState<R> = Absent | Empty | Written(header: seq<string>, rows: seq<R>)

  /** Python's `eval`, applied by the loader to a tag field that starts with
      `[`; what it yields is not modelled and is supplied by the caller. */
  type Evaluator = string -> seq<string>

  /** A tag that survives the `|` codec: non-empty, no surrounding whitespace,
      no `|` inside. */
  predicate IsCleanTag(t: string) {
    t != [] && IsStripped(t) && '|' !in t
  }

  /** `field.startswith("[")`: the loader's test for a list literal. */
  predicate OpensList(field: string) {
    |field| > 0 && field[0] == '['
  }

  /** The pieces of every tag between its own `|` characters, tag after tag:
      what the loader's split sees once the tags are joined with `|`. */
  function Pieces(tags: seq<string>): (pieces: seq<string>)
    ensures |pieces| >= |tags|
  {
    if tags == [] then [] else Split(tags[0], '|') + Pieces(tags[1..])
  }

  /** `"|".join(tags)`: splitting the field on `|` gives the pieces of every
      tag in order, which are the tags themselves when none contains `|`. */
  function EncodeTags(tags: seq<string>): (field: string)
    ensures tags == [] ==> field == []
    ensures tags != [] ==> Split(field, '|') == Pieces(tags)
    ensures tags != [] && (forall i :: 0 <= i < |tags| ==> '|' !in tags[i]) ==>
              Split(field, '|') == tags
  {
    EncodeSplitsBack(tags);
    SplitJoinedPieces(tags);
    Join(tags, "|")
  }

  /** Splitting a `|`-join on `|` gives the pieces of every tag. */
  lemma SplitJoinedPieces(tags: seq<string>)
    ensures tags != [] ==> Split(Join(tags, "|"), '|') == Pieces(tags)
  {
    if tags != [] {
      PiecesFree(tags);
      JoinPieces(tags);
      SplitJoin(Pieces(tags), '|');
    }
  }

  /** No piece contains `|`. */
  lemma {:induction false} PiecesFree(tags: seq<string>)
    ensures forall i :: 0 <= i < |Pieces(tags)| ==> '|' !in Pieces(tags)[i]
  {
    if tags != [] {
      SplitPiecesFree(tags[0], '|');
      PiecesFree(tags[1..]);
    }
  }

  /** Joining the pieces with `|` gives the same field as joining the tags. */
  lemma {:induction false} JoinPieces(tags: seq<string>)
    requires tags != []
    ensures Join(Pieces(tags), "|") == Join(tags, "|")
  {
    JoinSplit(tags[0], '|');
    if |tags| == 1 {
      assert Pieces(tags) == Split(tags[0], '|');
    } else {
      JoinPieces(tags[1..]);
      JoinConcat(Split(tags[0], '|'), Pieces(tags[1..]), "|");
    }
  }

  /** A list of `|`-free tags is its own pieces. */
  lemma {:induction false} PiecesOfPlainTags(tags: seq<string>)
    requires forall i :: 0 <= i < |tags| ==> '|' !in tags[i]
    ensures Pieces(tags) == tags
  {
    if tags != [] {
      SplitWithout(tags[0], '|');
      PiecesOfPlainTags(tags[1..]);
      assert [tags[0]] + tags[1..] == tags;
    }
  }

  /** Splitting the joined field on `|` gives back any non-empty list of
      tags none of which holds `|`. */
  lemma EncodeSplitsBack(tags: seq<string>)
    ensures tags != [] && (forall i :: 0 <= i < |tags| ==> '|' !in tags[i]) ==>
              Split(Join(tags, "|"), '|') == tags
  {
    if tags != [] && (forall i :: 0 <= i < |tags| ==> '|' !in tags[i]) {
      SplitJoin(tags, '|');
    }
  }

  /** A token's contribution to the loaded tags: itself stripped, or nothing
      when it is all whitespace. */
  function Kept(t: string): seq<string> {
    if Strip(t) == [] then [] else [Strip(t)]
  }

  /** `[t.strip() for t in tokens if t.strip()]`: the stripped tokens, in
      order, the empty ones dropped. */
  function CleanTokens(tokens: seq<string>): (tags: seq<string>)
    ensures |tags| <= |tokens|
    ensures forall j :: 0 <= j < |tags| ==> tags[j] != [] && IsStripped(tags[j])
    ensures (forall i :: 0 <= i < |tokens| ==> tokens[i] != [] && IsStripped(tokens[i])) ==>
              tags == tokens
  {
    if tokens == [] then []
    else
      Kept(tokens[0]) + CleanTokens(tokens[1..])
  }

  /** Tokens that all strip to non-empty strings are all kept, stripped. */
  lemma {:induction false} CleanTokensAllKept(tokens: seq<string>, stripped: seq<string>)
    requires |tokens| == |stripped|
    requires forall i :: 0 <= i < |tokens| ==> Strip(tokens[i]) == stripped[i] != []
    ensures CleanTokens(tokens) == stripped
  {
    if tokens != [] {
      CleanTokensAllKept(tokens[1..], stripped[1..]);
      assert stripped == [stripped[0]] + stripped[1..];
    }
  }

  lemma {:induction false} CleanTokensKeepAbsent(tokens: seq<string>, c: char)
    requires forall i :: 0 <= i < |tokens| ==> c !in tokens[i]
    ensures forall j :: 0 <= j < |CleanTokens(tokens)| ==> c !in CleanTokens(tokens)[j]
  {
    if tokens != [] {
      StripKeepsAbsent(tokens[0], c);
      CleanTokensKeepAbsent(tokens[1..], c);
    }
  }

  /** Filtering a concatenation filters each part. */
  lemma {:induction false} CleanTokensAppend(a: seq<string>, b: seq<string>)
    ensures CleanTokens(a + b) == CleanTokens(a) + CleanTokens(b)
  {
    if a != [] {
      var ab := a + b;
      assert ab[0] == a[0] && ab[1..] == a[1..] + b;
      CleanTokensAppend(a[1..], b);
      CleanTokensCons(ab);
      CleanTokensCons(a);
    } else {
      assert a + b == b;
    }
  }

  lemma CleanTokensCons(tokens: seq<string>)
    requires tokens != []
    ensures CleanTokens(tokens) == Kept(tokens[0]) + CleanTokens(tokens[1..])
  {
  }

  /** One token is kept, stripped, exactly when it is not all whitespace. */
  lemma CleanTokensSingle(t: string)
    ensures CleanTokens([t]) == (if Strip(t) == [] then [] else [Strip(t)])
  {
    assert [t][1..] == [];
  }

  /** The loader's three-way rule for a `Tags` field: a field holding `|` is
      split on `|`, each piece stripped and the empty ones dropped; otherwise
      a field starting with `[` is handed to `eval`; anything else gives no
      tags. */
  function DecodeTags(field: string, eval: Evaluator): (tags: seq<string>)
    ensures '|' in field ==> |tags| <= multiset(field)['|'] + 1
    ensures '|' in field ==> forall j :: 0 <= j < |tags| ==> IsCleanTag(tags[j])
    ensures '|' !in field && OpensList(field) ==> tags == eval(field)
    ensures '|' !in field && !OpensList(field) ==> tags == []
  {
    if '|' in field then
      SplitCount(field, '|');
      SplitPiecesFree(field, '|');
      CleanTokensKeepAbsent(Split(field, '|'), '|');
      CleanTokens(Split(field, '|'))
    else if OpensList(field) then eval(field)
    else []
  }

  /** Tags of length two or more that are all clean come back unchanged. */
  lemma TagsRoundTrip(tags: seq<string>, eval: Evaluator)
    requires |tags| >= 2
    requires forall i :: 0 <= i < |tags| ==> IsCleanTag(tags[i])
    ensures DecodeTags(EncodeTags(tags), eval) == tags
  {
    JoinHasSeparator(tags, '|');
  }

  /** A field of two or more `|`-separated pieces decodes to its pieces,
      stripped, with the blank ones dropped and the order kept. */
  lemma DecodeJoined(parts: seq<string>, eval: Evaluator)
    requires |parts| >= 2
    requires forall i :: 0 <= i < |parts| ==> '|' !in parts[i]
    ensures DecodeTags(Join(parts, "|"), eval) == CleanTokens(parts)
  {
    JoinHasSeparator(parts, '|');
    SplitJoin(parts, '|');
  }

  /** Once the saved field holds a `|` (two or more tags, or one tag with a
      `|` inside), it loads as the stripped non-blank pieces of all the tags,
      in order: a `|` inside a tag splits it into several tags. */
  lemma DecodeEncoded(tags: seq<string>, eval: Evaluator)
    requires |tags| >= 2 || (|tags| == 1 && '|' in tags[0])
    ensures DecodeTags(EncodeTags(tags), eval) == CleanTokens(Pieces(tags))
  {
    if |tags| >= 2 {
      JoinHasSeparator(tags, '|');
    }
  }

  /** A tag `a|b` saved beside a tag `c` comes back as the three tags
      `a`, `b` and `c` (Home's input `a|b, c` is saved as `a|b|c`). */
  lemma InnerBarSplitsTag(a: string, b: string, c: string, eval: Evaluator)
    requires IsCleanTag(a) && IsCleanTag(b) && IsCleanTag(c)
    ensures DecodeTags(EncodeTags([a + "|" + b, c]), eval) == [a, b, c]
  {
    var tags := [a + "|" + b, c];
    assert '|' in tags[0] by { assert tags[0][|a|] == '|'; }
    DecodeEncoded(tags, eval);
    PiecesOfBarTag(a, b, c);
    CleanTokensAllKept([a, b, c], [a, b, c]);
  }

  lemma PiecesOfBarTag(a: string, b: string, c: string)
    requires '|' !in a && '|' !in b && '|' !in c
    ensures Pieces([a + "|" + b, c]) == [a, b, c]
  {
    var tags := [a + "|" + b, c];
    SplitAfterFirst(a, '|', b);
    SplitWithout(a, '|');
    SplitWithout(b, '|');
    SplitWithout(c, '|');
    assert tags[1..] == [c] && [c][1..] == [];
    assert Pieces(tags) == Split(a + "|" + b, '|') + (Split(c, '|') + Pieces([]));
  }

  /** `"a||b"` loads as `["a", "b"]`: a blank piece is skipped, the rest kept. */
  lemma DecodeSkipsBlankPiece(a: string, b: string, eval: Evaluator)
    requires IsCleanTag(a) && IsCleanTag(b)
    ensures DecodeTags(a + "||" + b, eval) == [a, b]
  {
    JoinBlankMiddle(a, b);
    DecodeJoined([a, [], b], eval);
    DropsBlankMiddle(a, b);
  }

  lemma JoinBlankMiddle(a: string, b: string)
    ensures Join([a, [], b], "|") == a + "||" + b
  {
    assert Join([[], b], "|") == [] + "|" + Join([b], "|");
    assert Join([a, [], b], "|") == a + "|" + Join([[], b], "|");
  }

  lemma DropsBlankMiddle(a: string, b: string)
    requires IsCleanTag(a) && IsCleanTag(b)
    ensures CleanTokens([a, [], b]) == [a, b]
  {
    var tokens: seq<string> := [a, [], b];
    assert tokens[1..] == [[], b] && tokens[1..][1..] == [b] && [b][1..] == [];
    CleanTokensCons(tokens);
    CleanTokensCons([[], b]);
    CleanTokensCons([b]);
    assert Kept(a) == [a] && Kept([]) == [] && Kept(b) == [b];
  }

  /** A list holding an empty tag or a tag with `|` in it never survives the
      codec, and neither does any list of two or more with an unclean tag. */
  lemma UncleanTagLost(tags: seq<string>, i: nat, eval: Evaluator)
    requires i < |tags| && !IsCleanTag(tags[i])
    requires |tags| != 1 || tags[i] == [] || '|' in tags[i]
    ensures DecodeTags(EncodeTags(tags), eval) != tags
  {
    var field := EncodeTags(tags);
    if '|' !in field {
      if |tags| >= 2 {
        JoinHasSeparator(tags, '|');
      }
      assert tags == [tags[0]] && field == tags[0];
    }
  }

  /** A one-tag list without `|` and not starting with `[` is saved as the
      bare tag, which the loader reads back as no tags at all. */
  lemma SingleTagLost(t: string, eval: Evaluator)
    requires '|' !in t
    requires !OpensList(t)
    ensures DecodeTags(EncodeTags([t]), eval) == []
  {
  }

  /** For clean tags (a lone tag also not starting with `[`), the codec is
      lossless exactly when the list does not have one element. */
  lemma RoundTripIffNotSingle(tags: seq<string>, eval: Evaluator)
    requires forall i :: 0 <= i < |tags| ==> IsCleanTag(tags[i])
    requires |tags| == 1 ==> !OpensList(tags[0])
    ensures DecodeTags(EncodeTags(tags), eval) == tags <==> |tags| != 1
  {
    if |tags| >= 2 {
      TagsRoundTrip(tags, eval);
    } else if |tags| == 1 {
      SingleTagLost(tags[0], eval);
    }
  }

  /** Loading is not stable under save and reload: a field `t|` loads as
      the one tag `t`, which saves as the bare `t` and reloads as no tags. */
  lemma ReloadNotIdempotent(t: string, eval: Evaluator)
    requires IsCleanTag(t) && !OpensList(t)
    ensures DecodeTags(t + "|", eval) == [t]
    ensures DecodeTags(EncodeTags(DecodeTags(t + "|", eval)), eval) == []
  {
    assert t + "|" == t + ['|'] + [];
    SplitAfterFirst(t, '|', []);
    assert Split(t + "|", '|') == [t, []];
    assert CleanTokens([t, []]) == [t] + CleanTokens([[]]);
    SingleTagLost(t, eval);
  }

  /** `out = e.copy(); out["Tags"] = "|".join(...)`: the row written for an entry. */
  function EncodeRow(e: CpdEntry): (r: CpdRow)
    ensures r.timestamp == e.timestamp && r.query == e.query
    ensures r.response == e.response && r.reflection == e.reflection
    ensures r.tags == EncodeTags(e.tags)
    ensures e.tags == [] ==> r.tags == []
    ensures e.tags != [] && (forall i :: 0 <= i < |e.tags| ==> '|' !in e.tags[i]) ==>
              Split(r.tags, '|') == e.tags
  {
    CpdRow(e.timestamp, e.query, e.response, e.reflection, EncodeTags(e.tags))
  }

  /** The entry the loader builds from one row. */
  function DecodeRow(r: CpdRow, eval: Evaluator): (e: CpdEntry)
    ensures e.timestamp == r.timestamp && e.query == r.query
    ensures e.response == r.response && e.reflection == r.reflection
    ensures '|' in r.tags ==> forall j :: 0 <= j < |e.tags| ==> IsCleanTag(e.tags[j])
    ensures r.tags == [] ==> e.tags == []
    ensures e.tags == DecodeTags(r.tags, eval)
  {
    CpdEntry(r.timestamp, r.query, r.response, r.reflection, DecodeTags(r.tags, eval))
  }

  /** The file `save_cpd(entries)` leaves behind: an empty file for no
      entries, otherwise the header and one row per entry, in order. */
  function SavedCpd(entries: seq<CpdEntry>): (f: FileState<CpdRow>)
    ensures f.Empty? <==> entries == []
    ensures entries != [] ==> f.Written? && f.header == CpdFields && |f.rows| == |entries|
    ensures f.Written? ==> forall i :: 0 <= i < |entries| ==> f.rows[i] == EncodeRow(entries[i])
  {
    if entries == [] then Empty
    else Written(CpdFields, seq(|entries|, i requires 0 <= i < |entries| => EncodeRow(entries[i])))
  }

  /** What `load_cpd()` returns for a file in state `f`. */
  function LoadedCpd(f: FileState<CpdRow>, eval: Evaluator): (entries: seq<CpdEntry>)
    ensures f.Absent? || f.Empty? ==> entries == []
    ensures f.Written? ==> |entries| == |f.rows|
  {
    match f
    case Absent => []
    case Empty => []
    case Written(_, rows) => seq(|rows|, i requires 0 <= i < |rows| => DecodeRow(rows[i], eval))
  }

  /** Saving then loading gives the entries back exactly when the tag codec
      gives back every entry's tags; nothing else is lost. */
  lemma SaveLoadCpdIff(entries: seq<CpdEntry>, eval: Evaluator)
    ensures LoadedCpd(SavedCpd(entries), eval) == entries <==>
            forall i :: 0 <= i < |entries| ==> DecodeTags(EncodeTags(entries[i].tags), eval) == entries[i].tags
  {
    var loaded := LoadedCpd(SavedCpd(entries), eval);
    if forall i :: 0 <= i < |entries| ==> DecodeTags(EncodeTags(entries[i].tags), eval) == entries[i].tags {
      assert |loaded| == |entries|;
      forall i | 0 <= i < |entries| ensures loaded[i] == entries[i] {
        assert loaded[i] == DecodeRow(EncodeRow(entries[i]), eval);
      }
    }
    if loaded == entries {
      forall i | 0 <= i < |entries|
        ensures DecodeTags(EncodeTags(entries[i].tags), eval) == entries[i].tags
      {
        assert loaded[i] == DecodeRow(EncodeRow(entries[i]), eval);
      }
    }
  }

  /** One entry survives a save and a load exactly when its tags do. */
  lemma RowRoundTripIff(e: CpdEntry, eval: Evaluator)
    ensures DecodeRow(EncodeRow(e), eval) == e <==> DecodeTags(EncodeTags(e.tags), eval) == e.tags
  {
  }

  /** A log whose every entry has no tags or at least two clean tags survives
      a save and a load unchanged. */
  lemma SaveLoadCpd(entries: seq<CpdEntry>, eval: Evaluator)
    requires forall i :: 0 <= i < |entries| ==> |entries[i].tags| != 1
    requires forall i, j :: 0 <= i < |entries| && 0 <= j < |entries[i].tags| ==> IsCleanTag(entries[i].tags[j])
    ensures LoadedCpd(SavedCpd(entries), eval) == entries
  {
    forall i | 0 <= i < |entries|
      ensures DecodeTags(EncodeTags(entries[i].tags), eval) == entries[i].tags
    {
      if |entries[i].tags| >= 2 {
        TagsRoundTrip(entries[i].tags, eval);
      }
    }
    SaveLoadCpdIff(entries, eval);
  }

  /** A saved one-tag entry comes back with no tags; its other fields survive. */
  lemma SingleTagEntryLost(e: CpdEntry, eval: Evaluator)
    requires |e.tags| == 1 && '|' !in e.tags[0]
    requires !OpensList(e.tags[0])
    ensures LoadedCpd(SavedCpd([e]), eval) == [e.(tags := [])]
  {
    assert e.tags == [e.tags[0]];
    SingleTagLost(e.tags[0], eval);
  }

  /** The file `save_pdp(goals)` leaves behind; loading it gives the goals back. */
  function SavedPdp(goals: seq<PdpGoal>): (f: FileState<PdpGoal>)
    ensures f.Empty? <==> goals == []
    ensures f.Written? ==> f.header == PdpFields && f.rows == goals
    ensures LoadedPdp(f) == goals
  {
    if goals == [] then Empty else Written(PdpFields, goals)
  }

  /** What `load_pdp()` returns for a file in state `f`. */
  function LoadedPdp(f: FileState<PdpGoal>): (goals: seq<PdpGoal>)
    ensures f.Absent? || f.Empty? ==> goals == []
  {
    match f
    case Absent => []
    case Empty => []
    case Written(_, rows) => rows
  }

  /** The data directory holding the two backing files. */
  class Disk {
    var cpd: FileState<CpdRow>
    var pdp: FileState<PdpGoal>

    constructor (cpd0: FileState<CpdRow>, pdp0: FileState<PdpGoal>)
      ensures cpd == cpd0 && pdp == pdp0
    {
      cpd, pdp := cpd0, pdp0;
    }

    /** `os.path.exists(CPD_FILE)` */
    predicate CpdExists()
      reads this
      ensures CpdExists() <==> cpd != Absent
    {
      !cpd.Absent?
    }

    /** `os.path.exists(PDP_FILE)` */
    predicate PdpExists()
      reads this
      ensures PdpExists() <==> pdp != Absent
    {
      !pdp.Absent?
    }

    /** `load_cpd()`: no file gives no entries; otherwise every row is read,
        in order, its tag field decoded. */
    method LoadCpd(eval: Evaluator) returns (entries: seq<CpdEntry>)
      ensures cpd.Absent? || cpd.Empty? ==> entries == []
      ensures cpd.Written? ==> |entries| == |cpd.rows|
      ensures cpd.Written? ==> forall i :: 0 <= i < |entries| ==> entries[i] == DecodeRow(cpd.rows[i], eval)
      ensures entries == LoadedCpd(cpd, eval)
    {
      if cpd.Absent? {
        return [];
      }
      var rows: seq<CpdRow> := if cpd.Written? then cpd.rows else [];
      entries := [];
      for i := 0 to |rows|
        invariant |entries| == i
        invariant forall k :: 0 <= k < i ==> entries[k] == DecodeRow(rows[k], eval)
      {
        var e := DecodeRow(rows[i], eval);
        entries := entries + [e];
      }
    }

    /** `save_cpd(entries)`: an empty log truncates the file to nothing;
        otherwise the file is rewritten with the header and one row per
        entry. The PDP file is untouched. */
    method SaveCpd(entries: seq<CpdEntry>)
      modifies this
      ensures cpd == SavedCpd(entries)
      ensures pdp == old(pdp)
    {
      if entries == [] {
        cpd := Empty;
        return;
      }
      var rows: seq<CpdRow> := [];
      for i := 0 to |entries|
        invariant |rows| == i
        invariant forall k :: 0 <= k < i ==> rows[k] == EncodeRow(entries[k])
      {
        rows := rows + [EncodeRow(entries[i])];
      }
      cpd := Written(CpdFields, rows);
    }

    /** `load_pdp()`: no file gives no goals; otherwise the rows, in order. */
    method LoadPdp() returns (goals: seq<PdpGoal>)
      ensures pdp.Absent? || pdp.Empty? ==> goals == []
      ensures pdp.Written? ==> goals == pdp.rows
      ensures goals == LoadedPdp(pdp)
    {
      if pdp.Absent? {
        return [];
      }
      goals := if pdp.Written? then pdp.rows else [];
    }

    /** `save_pdp(goals)`: an empty list truncates the file to nothing;
        otherwise the header and one row per goal. The CPD file is untouched. */
    method SavePdp(goals: seq<PdpGoal>)
      modifies this
      ensures pdp == SavedPdp(goals)
      ensures cpd == old(cpd)
    {
      if goals == [] {
        pdp := Empty;
        return;
      }
      var rows: seq<PdpGoal> := [];
      for i := 0 to |goals|
        invariant rows == goals[..i]
      {
        rows := rows + [goals[i]];
      }
      assert goals[..|goals|] == goals;
      pdp := Written(PdpFields, rows);
    }

    /** `os.remove(CPD_FILE)`, which needs the file to exist. */
    method RemoveCpd()
      requires CpdExists()
      modifies this
      ensures cpd.Absent? && pdp == old(pdp)
    {
      cpd := Absent;
    }

    /** `os.remove(PDP_FILE)`, which needs the file to exist. */
    method RemovePdp()
      requires PdpExists()
      modifies this
      ensures pdp.Absent? && cpd == old(cpd)
    {
      pdp := Absent;
    }
  }
}
