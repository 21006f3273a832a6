/**
 * The home page's CPD workflow: a question and its answer are logged with
 * normalised tags, the tag counts across the whole log decide which tags are
 * offered as PDP goals, an offered tag can be promoted to a goal, and the log
 * is shown with its tags in a display form.
 */
module Home {
  import opened Text
  import opened Storage
  import opened Session

  /** `t.strip().lower()` for one comma-separated token: a stripped,
      lower-case tag that holds no character the token did not (other than
      lower-case letters). */
  function NormaliseTag(token: string): (tag: string)
    ensures tag == Lower(Strip(token))
    ensures IsStripped(tag) && IsLowerCase(tag)
    ensures ',' !in token ==> ',' !in tag
    ensures '|' !in token ==> '|' !in tag
    ensures |tag| > 0 && tag[0] == '[' <==> |Strip(token)| > 0 && Strip(token)[0] == '['
    ensures tag == [] <==> forall i :: 0 <= i < |token| ==> IsSpace(token[i])
  {
    StripKeepsAbsent(token, ',');
    StripKeepsAbsent(token, '|');
    LowerIsLowerCase(Strip(token));
    LowerKeeps(Strip(token), ',');
    LowerKeeps(Strip(token), '|');
    StripEmptyIff(token);
    Lower(Strip(token))
  }

  /** The tag list built from the raw comma-separated input: no input gives
      no tags; otherwise one tag per comma-separated token (one more than
      there are commas), in input order, each normalised, empty ones kept. */
  function NormaliseTags(raw: string): (tags: seq<string>)
    ensures raw == [] ==> tags == []
    ensures raw != [] ==> |tags| == |Split(raw, ',')| == multiset(raw)[','] + 1
    ensures raw != [] ==> forall i :: 0 <= i < |tags| ==> tags[i] == NormaliseTag(Split(raw, ',')[i])
    ensures forall i :: 0 <= i < |tags| ==> IsStripped(tags[i]) && IsLowerCase(tags[i]) && ',' !in tags[i]
  {
    if raw == [] then []
    else
      var tokens := Split(raw, ',');
      SplitCount(raw, ',');
      SplitPiecesFree(raw, ',');
      seq(|tokens|, i requires 0 <= i < |tokens| => NormaliseTag(tokens[i]))
  }

  /** A token of nothing but whitespace becomes an empty tag; it is kept. */
  lemma BlankTokenKept(raw: string, i: nat)
    requires raw != [] && i < |Split(raw, ',')|
    requires forall k :: 0 <= k < |Split(raw, ',')[i]| ==> IsSpace(Split(raw, ',')[i][k])
    ensures |NormaliseTags(raw)| == |Split(raw, ',')| && NormaliseTags(raw)[i] == []
  {
    SplitCount(raw, ',');
  }

  /** Input with a comma, no `|` and no blank token is logged with tags that
      survive a save and a reload unchanged. */
  lemma NormalisedTagsSurviveReload(raw: string, eval: Evaluator)
    requires ',' in raw && '|' !in raw
    requires forall i :: 0 <= i < |Split(raw, ',')| ==> Strip(Split(raw, ',')[i]) != []
    ensures DecodeTags(EncodeTags(NormaliseTags(raw)), eval) == NormaliseTags(raw)
  {
    var tokens := Split(raw, ',');
    var tags := NormaliseTags(raw);
    SplitCount(raw, ',');
    assert |tags| >= 2;
    forall i | 0 <= i < |tags| ensures IsCleanTag(tags[i]) {
      assert tokens[i] in tokens;
      assert '|' !in tokens[i] by {
        forall k | 0 <= k < |tokens[i]| ensures tokens[i][k] != '|' {
          JoinSplit(raw, ',');
          TokenCharInSource(tokens, i, k, ',');
        }
      }
      StripEmptyIff(tokens[i]);
    }
    TagsRoundTrip(tags, eval);
  }

  /** Every character of a piece of `Join(tokens, [c])` is a character of the join. */
  lemma {:induction false} TokenCharInSource(tokens: seq<string>, i: nat, k: nat, c: char)
    requires i < |tokens| && k < |tokens[i]|
    ensures tokens[i][k] in Join(tokens, [c])
  {
    if i == 0 {
      assert Join(tokens, [c])[k] == tokens[0][k];
    } else {
      TokenCharInSource(tokens[1..], i - 1, k, c);
      var rest := Join(tokens[1..], [c]);
      var j :| 0 <= j < |rest| && rest[j] == tokens[i][k];
      assert Join(tokens, [c])[|tokens[0]| + 1 + j] == rest[j];
    }
  }

  /** Input of one token (no comma, no `|`, not opening with `[` once
      stripped) is logged with one tag, which a save and a reload turn into
      no tags at all. */
  lemma SingleTagInputLost(raw: string, eval: Evaluator)
    requires raw != [] && ',' !in raw && '|' !in raw
    requires !OpensList(Strip(raw))
    ensures |NormaliseTags(raw)| == 1
    ensures DecodeTags(EncodeTags(NormaliseTags(raw)), eval) == []
  {
    SplitWithout(raw, ',');
    var tags := NormaliseTags(raw);
    assert tags == [NormaliseTag(raw)];
    SingleTagLost(NormaliseTag(raw), eval);
  }

  /** The answer shown for a question when no API key is configured. */
  const PlaceholderHead: string := "\U{1F4D8} Placeholder response for:\n\n**"
  const PlaceholderTail: string := "**\n\n(Connect API to get real answers.)"

  /** The response for a question: the provider's reply when a key is
      configured (the call itself is not modelled and its reply, an answer
      or an error message, is an input), otherwise a placeholder that quotes
      the question. */
  function Respond(query: string, hasKey: bool, reply: string): (response: string)
    ensures hasKey ==> response == reply
    ensures !hasKey ==> |response| == |PlaceholderHead| + |query| + |PlaceholderTail|
    ensures !hasKey ==> response[|PlaceholderHead|..|PlaceholderHead| + |query|] == query
  {
    if hasKey then reply else PlaceholderHead + query + PlaceholderTail
  }

  /** "Log this as CPD": one entry with the given fields and the normalised
      tags is appended to the log, and the whole updated log is saved. The
      goals, their file and the confirmation flags are untouched. */
  method LogEntry(s: SessionState, timestamp: string, query: string, response: string,
                  reflection: string, rawTags: string)
    requires query != []
    modifies s, s.disk
    ensures s.cpdLog == old(s.cpdLog) + [CpdEntry(timestamp, query, response, reflection, NormaliseTags(rawTags))]
    ensures s.disk.cpd == SavedCpd(s.cpdLog)
    ensures s.pdpGoals == old(s.pdpGoals) && s.disk.pdp == old(s.disk.pdp)
    ensures s.showClearCpdConfirm == old(s.showClearCpdConfirm)
    ensures s.showClearPdpConfirm == old(s.showClearPdpConfirm)
  {
    var entry := CpdEntry(timestamp, query, response, reflection, NormaliseTags(rawTags));
    s.cpdLog := s.cpdLog + [entry];
    s.disk.SaveCpd(s.cpdLog);
  }

  /** A session opened on the CPD overview page never reads the CPD file, so
      the first entry logged afterwards replaces whatever the file held with
      a one-entry log. */
  method LogAfterCpdPageFirst(disk: Disk, timestamp: string, query: string, response: string,
                              reflection: string, rawTags: string)
    returns (s: SessionState)
    requires query != []
    modifies disk
    ensures s.disk == disk
    ensures s.cpdLog == [CpdEntry(timestamp, query, response, reflection, NormaliseTags(rawTags))]
    ensures disk.cpd == SavedCpd(s.cpdLog)
    ensures disk.pdp == old(disk.pdp)
  {
    s := new SessionState.OpenedOnCpdPage(disk);
    LogEntry(s, timestamp, query, response, reflection, rawTags);
  }

  /** Every tag of every entry, entry by entry, in log order. */
  function AllTags(log: seq<CpdEntry>): (all: seq<string>)
    ensures forall t :: t in all <==> exists e :: e in log && t in e.tags
  {
    if log == [] then []
    else
      assert forall e :: e in log <==> e == log[0] || e in log[1..];
      log[0].tags + AllTags(log[1..])
  }

  lemma {:induction false} AllTagsAppend(log: seq<CpdEntry>, e: CpdEntry)
    ensures AllTags(log + [e]) == AllTags(log) + e.tags
  {
    if log != [] {
      AllTagsAppend(log[1..], e);
      assert (log + [e])[1..] == log[1..] + [e];
    } else {
      assert AllTags([e]) == e.tags + AllTags([]);
    }
  }

  /** How often `t` occurs across all the entries' tag lists; a tag repeated
      within one entry counts each time. */
  function Occurrences(t: string, log: seq<CpdEntry>): nat {
    multiset(AllTags(log))[t]
  }

  /** Logging one more entry adds that entry's occurrences of `t` to the count. */
  lemma OccurrencesAppend(t: string, log: seq<CpdEntry>, e: CpdEntry)
    ensures Occurrences(t, log + [e]) == Occurrences(t, log) + multiset(e.tags)[t]
  {
    AllTagsAppend(log, e);
  }

  /** The offer is an exact-count test: a tag offered now stops being offered
      as soon as an entry carrying it is logged. */
  lemma FourthOccurrenceEndsOffer(t: string, log: seq<CpdEntry>, e: CpdEntry)
    requires Occurrences(t, log) == 3
    requires t in e.tags
    ensures Occurrences(t, log + [e]) > 3
  {
    OccurrencesAppend(t, log, e);
  }

  /** The position where `t` first occurs in `s`. */
  function FirstIndex(t: string, s: seq<string>): (k: nat)
    requires t in s
    ensures k < |s| && s[k] == t && t !in s[..k]
  {
    if s[0] == t then 0
    else
      var k := FirstIndex(t, s[1..]) + 1;
      assert s[..k] == [s[0]] + s[1..][..k - 1];
      k
  }

  /** An element not seen before position `i` first occurs at `i`. */
  lemma FirstIndexAt(s: seq<string>, i: nat)
    requires i < |s| && s[i] !in s[..i]
    ensures FirstIndex(s[i], s) == i
  {
  }

  /** `counts` maps each tag of `prefix`, and nothing else, to its number of
      occurrences in `prefix`. */
  ghost predicate Tally(counts: map<string, nat>, prefix: seq<string>) {
    && (forall t :: t in counts <==> t in prefix)
    && (forall t :: t in counts ==> counts[t] == multiset(prefix)[t])
  }

  lemma TallyStep(counts: map<string, nat>, prefix: seq<string>, t: string)
    requires Tally(counts, prefix)
    ensures Tally(counts[t := if t in counts then counts[t] + 1 else 1], prefix + [t])
  {
    assert multiset(prefix + [t]) == multiset(prefix) + multiset{t};
  }

  /** `keys` lists tags of `all` in the order of their first occurrence. */
  ghost predicate FirstOccurrenceOrder(keys: seq<string>, all: seq<string>) {
    && (forall j :: 0 <= j < |keys| ==> keys[j] in all)
    && (forall j, k :: 0 <= j < k < |keys| ==> FirstIndex(keys[j], all) < FirstIndex(keys[k], all))
  }

  /** A tag first met at position `i` may go at the end of the keys. */
  lemma OrderStep(keys: seq<string>, all: seq<string>, i: nat)
    requires i < |all| && all[i] !in all[..i]
    requires forall j :: 0 <= j < |keys| ==> keys[j] in all && FirstIndex(keys[j], all) < i
    requires FirstOccurrenceOrder(keys, all)
    ensures forall j :: 0 <= j < |keys| + 1 ==>
              (keys + [all[i]])[j] in all && FirstIndex((keys + [all[i]])[j], all) < i + 1
    ensures FirstOccurrenceOrder(keys + [all[i]], all)
  {
    FirstIndexAt(all, i);
  }

  /** `Counter(all)`: every distinct tag once, in order of first occurrence,
      with its number of occurrences. */
  method CountTags(all: seq<string>) returns (keys: seq<string>, counts: map<string, nat>)
    ensures forall t :: t in counts <==> t in all
    ensures forall t :: t in counts ==> counts[t] == multiset(all)[t]
    ensures forall t :: t in keys <==> t in counts
    ensures FirstOccurrenceOrder(keys, all)
  {
    keys, counts := [], map[];
    for i := 0 to |all|
      invariant Tally(counts, all[..i])
      invariant forall t :: t in keys <==> t in counts
      invariant forall j :: 0 <= j < |keys| ==> keys[j] in all && FirstIndex(keys[j], all) < i
      invariant FirstOccurrenceOrder(keys, all)
    {
      var t := all[i];
      assert all[..i + 1] == all[..i] + [t];
      TallyStep(counts, all[..i], t);
      if t !in counts {
        OrderStep(keys, all, i);
        keys := keys + [t];
      }
      counts := counts[t := if t in counts then counts[t] + 1 else 1];
    }
    assert all[..|all|] == all;
  }

  /** `for tag, count in ...items(): if count == 3`: the keys whose count is
      exactly three, in the order of `keys`. */
  method ExactlyThree(keys: seq<string>, counts: map<string, nat>, ghost all: seq<string>)
    returns (offers: seq<string>)
    requires forall t :: t in keys ==> t in counts
    requires FirstOccurrenceOrder(keys, all)
    ensures forall t :: t in offers <==> t in keys && counts[t] == 3
    ensures FirstOccurrenceOrder(offers, all)
  {
    offers := [];
    ghost var picked: seq<nat> := [];
    for i := 0 to |keys|
      invariant |picked| == |offers|
      invariant forall a :: 0 <= a < |offers| ==> picked[a] < i && offers[a] == keys[picked[a]]
      invariant forall a, b :: 0 <= a < b < |offers| ==> picked[a] < picked[b]
      invariant forall t :: t in offers <==> t in keys[..i] && counts[t] == 3
    {
      assert keys[..i + 1] == keys[..i] + [keys[i]];
      if counts[keys[i]] == 3 {
        offers := offers + [keys[i]];
        picked := picked + [i];
      }
    }
    assert keys[..|keys|] == keys;
    forall a, b | 0 <= a < b < |offers|
      ensures FirstIndex(offers[a], all) < FirstIndex(offers[b], all)
    {
      assert offers[a] == keys[picked[a]] && offers[b] == keys[picked[b]];
    }
  }

  /** The tags offered as PDP goals: exactly those occurring three times
      across the log, each once, in order of first occurrence. */
  method SuggestGoals(log: seq<CpdEntry>) returns (offers: seq<string>)
    ensures forall t :: t in offers <==> Occurrences(t, log) == 3
    ensures FirstOccurrenceOrder(offers, AllTags(log))
  {
    var all := AllTags(log);
    var keys, counts := CountTags(all);
    offers := ExactlyThree(keys, counts, all);
  }

  /** "Add 't' as a PDP goal": one goal for the offered tag is appended and
      the whole goal list is saved. The log, its file and the flags are
      untouched, so the same tag stays on offer. */
  method PromoteGoal(s: SessionState, tag: string, created: string)
    requires Occurrences(tag, s.cpdLog) == 3
    modifies s, s.disk
    ensures s.pdpGoals == old(s.pdpGoals) + [PdpGoal(tag, created)]
    ensures s.disk.pdp == SavedPdp(s.pdpGoals)
    ensures s.cpdLog == old(s.cpdLog) && s.disk.cpd == old(s.disk.cpd)
    ensures s.showClearCpdConfirm == old(s.showClearCpdConfirm)
    ensures s.showClearPdpConfirm == old(s.showClearPdpConfirm)
  {
    var goal := PdpGoal(tag, created);
    s.pdpGoals := s.pdpGoals + [goal];
    s.disk.SavePdp(s.pdpGoals);
  }

  /** A `Tags` cell of the log table: a list, or some other value. */
  datatype TagCell = TagList(tags: seq<string>) | NotAList

  /** The tag emoji put in front of every tag shown. */
  const TagEmoji: string := "\U{1F3F7}\U{FE0F}"

  function TagLabel(t: string): string {
    TagEmoji + " " + t
  }

  function Labels(tags: seq<string>): (labels: seq<string>)
    ensures |labels| == |tags|
    ensures forall i :: 0 <= i < |tags| ==> labels[i] == TagLabel(tags[i])
  {
    seq(|tags|, i requires 0 <= i < |tags| => TagLabel(tags[i]))
  }

  /** The display form of a `Tags` cell: each tag behind the emoji, joined by
      ` | `; a value that is not a list shows as nothing. It is empty exactly
      when there is no tag to show. */
  function DisplayTags(cell: TagCell): (shown: string)
    ensures shown == [] <==> cell.NotAList? || cell.tags == []
    ensures cell.TagList? && |cell.tags| == 1 ==> shown == TagLabel(cell.tags[0])
  {
    match cell
    case NotAList => []
    case TagList(tags) =>
      var labels := Labels(tags);
      if labels == [] then []
      else
        assert Join(labels, " | ")[..|labels[0]|] == labels[0];
        Join(labels, " | ")
  }

  /** One more tag adds ` | `, the emoji and the tag at the end of the display. */
  lemma DisplayAppend(tags: seq<string>, t: string)
    requires tags != []
    ensures DisplayTags(TagList(tags + [t])) == DisplayTags(TagList(tags)) + " | " + TagLabel(t)
  {
    assert Labels(tags + [t]) == Labels(tags) + [TagLabel(t)];
    JoinAppend(Labels(tags), TagLabel(t), " | ");
  }

  /** The pieces of the display between its `|` characters: every label with
      the spaces of the ` | ` separators still around it. */
  function Padded(labels: seq<string>): (pieces: seq<string>)
    ensures |pieces| == |labels|
  {
    seq(|labels|, i requires 0 <= i < |labels| =>
      (if i > 0 then " " else "") + labels[i] + (if i < |labels| - 1 then " " else ""))
  }

  lemma {:induction false} JoinPadded(labels: seq<string>)
    requires labels != []
    ensures Join(labels, " | ") == Join(Padded(labels), "|")
  {
    var p := Padded(labels);
    if |labels| > 1 {
      var rest := labels[1..];
      var pr := Padded(rest);
      JoinPadded(rest);
      forall j | 0 <= j < |pr| ensures p[1..][j] == ([" " + pr[0]] + pr[1..])[j] {
        if j == 0 {
          var suffix: string := if 1 < |labels| - 1 then " " else "";
          assert p[1] == " " + rest[0] + suffix;
          assert pr[0] == "" + rest[0] + suffix;
        }
      }
      assert p[1..] == [" " + pr[0]] + pr[1..];
      JoinPrefixFirst(pr, " ", "|");
      assert p[0] == labels[0] + " ";
      assert Join(p, "|") == p[0] + "|" + Join(p[1..], "|");
    } else {
      assert p[0] == labels[0];
      assert p == [labels[0]];
    }
  }

  /** A label is non-empty and stripped, and holds `|` only if its tag does. */
  lemma LabelClean(t: string)
    requires IsCleanTag(t)
    ensures TagLabel(t) != [] && IsStripped(TagLabel(t)) && '|' !in TagLabel(t)
  {
    var l := TagLabel(t);
    assert l[0] == TagEmoji[0];
    assert l[|l| - 1] == t[|t| - 1];
    forall k | 0 <= k < |l| ensures l[k] != '|' {
      if k >= |TagEmoji| + 1 {
        assert l[k] == t[k - |TagEmoji| - 1];
      }
    }
  }

  /** The display form reads back: split at each `|` and stripped by the
      loader's own rule, it gives exactly the labels, in order, when every
      tag is non-empty, stripped and free of `|`. */
  lemma DisplayReadsBack(tags: seq<string>)
    requires tags != []
    requires forall i :: 0 <= i < |tags| ==> IsCleanTag(tags[i])
    ensures CleanTokens(Split(DisplayTags(TagList(tags)), '|')) == Labels(tags)
  {
    var labels := Labels(tags);
    var pieces := Padded(labels);
    assert DisplayTags(TagList(tags)) == Join(labels, " | ");
    JoinPadded(labels);
    forall i | 0 <= i < |labels|
      ensures '|' !in pieces[i] && Strip(pieces[i]) == labels[i] != []
    {
      LabelClean(tags[i]);
      StripPadded(labels[i], i > 0, i < |labels| - 1);
      var pre: string := if i > 0 then " " else "";
      var post: string := if i < |labels| - 1 then " " else "";
      assert pieces[i] == pre + labels[i] + post;
      assert '|' !in pre && '|' !in post;
    }
    SplitJoin(pieces, '|');
    CleanTokensAllKept(pieces, labels);
  }
}
