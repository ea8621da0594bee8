/**
 * Delivery of a scheduled task's answer in bounded messages (workflows/console_workflow.py, `_split_slack_text`,
 * `_scheduled_task_blocks` and the chunk and footer assembly of `_deliver_to_slack` and `_deliver_to_google_chat`).
 */
module Chunking {
  import opened Common

  const SLACK_MESSAGE_MAX := 50000
  const SLACK_CHUNK_MAX := 3800
  const SLACK_SECTION_MAX := 3000
  const GCHAT_MESSAGE_MAX := 50000
  const GCHAT_CHUNK_MAX := 4000

  // ---- Where a window is cut ------------------------------------------------------------------------

  predicate OccursAt(s: string, sep: string, i: int) {
    0 <= i <= |s| - |sep| && s[i..i + |sep|] == sep
  }

  /** `s.rfind(sep)`, looking no higher than `top`. */
  function RFind(s: string, sep: string, top: nat): (r: int)
    ensures r == -1 || (0 <= r <= top && OccursAt(s, sep, r))
    ensures forall i :: r < i <= top ==> !OccursAt(s, sep, i)
  {
    if OccursAt(s, sep, top) then top else if top == 0 then -1 else RFind(s, sep, top - 1)
  }

  /** The separator occurs in the second half of the window. */
  ghost predicate Late(window: string, sep: string) {
    exists i :: |window| / 2 <= i && OccursAt(window, sep, i)
  }

  /** `end` is just after the last occurrence, and that is in the second half. */
  ghost predicate EndsLast(window: string, sep: string, end: int) {
    && |window| / 2 <= end - |sep| && OccursAt(window, sep, end - |sep|)
    && forall i :: end - |sep| < i ==> !OccursAt(window, sep, i)
  }

  /** A window ends after its best separator: paragraph, then line, then word, else nowhere in particular. */
  ghost predicate IsCut(window: string, end: int) {
    if Late(window, "\n\n") then EndsLast(window, "\n\n", end)
    else if Late(window, "\n") then EndsLast(window, "\n", end)
    else if Late(window, " ") then EndsLast(window, " ", end)
    else end == |window|
  }

  /** `chunks` is the greedy division of `text` into windows cut that way. */
  ghost predicate Splits(chunks: seq<string>, text: string, limit: nat)
    decreases |chunks|
  {
    if |text| <= limit then chunks == (if text == "" then [] else [text])
    else
      && chunks != [] && IsCut(text[..limit], |chunks[0]|) && |chunks[0]| <= |text|
      && chunks[0] == text[..|chunks[0]|] && Splits(chunks[1..], text[|chunks[0]|..], limit)
  }

  ghost predicate NoneLate(window: string, k: nat) {
    && (k > 0 ==> !Late(window, "\n\n")) && (k > 1 ==> !Late(window, "\n")) && (k > 2 ==> !Late(window, " "))
  }

  function Separator(k: nat): string
    requires k < 3
  {
    if k == 0 then "\n\n" else if k == 1 then "\n" else " "
  }

  lemma FoundCut(window: string, k: nat, boundary: int)
    requires window != "" && k < 3 && NoneLate(window, k)
    requires boundary == RFind(window, Separator(k), |window|) && boundary >= |window| / 2
    ensures IsCut(window, boundary + |Separator(k)|)
    ensures |window| / 2 < boundary + |Separator(k)| <= |window|
  {
    assert OccursAt(window, Separator(k), boundary);
    assert EndsLast(window, Separator(k), boundary + |Separator(k)|);
  }

  lemma NotFound(window: string, k: nat)
    requires k < 3 && NoneLate(window, k) && RFind(window, Separator(k), |window|) < |window| / 2
    ensures NoneLate(window, k + 1)
  {
    assert !Late(window, Separator(k));
  }

  /** One pass of the separator loop: where the window ends, or 0 when the separator does not occur late enough. */
  method TrySeparator(window: string, k: nat) returns (end: nat)
    requires window != "" && k < 3 && NoneLate(window, k)
    ensures end > 0 ==> IsCut(window, end) && |window| / 2 < end <= |window|
    ensures end == 0 ==> NoneLate(window, k + 1)
  {
    var boundary := RFind(window, Separator(k), |window|);
    if boundary >= |window| / 2 {
      FoundCut(window, k, boundary);
      end := boundary + |Separator(k)|;
    } else {
      NotFound(window, k);
      end := 0;
    }
  }

  method CutWindow(window: string) returns (end: nat)
    requires window != ""
    ensures IsCut(window, end) && |window| / 2 < end <= |window|
  {
    for k := 0 to 3
      invariant NoneLate(window, k)
    {
      end := TrySeparator(window, k);
      if end > 0 {
        return;
      }
    }
    NoCut(window);
    end := |window|;
  }

  lemma NoCut(window: string)
    requires window != "" && NoneLate(window, 3)
    ensures IsCut(window, |window|) && |window| / 2 < |window|
  {}

  /** Whatever divides the remaining text completes `chunks` to a division of the whole. */
  ghost predicate Started(chunks: seq<string>, remaining: string, text: string, limit: nat) {
    forall rest :: Splits(rest, remaining, limit) ==> Splits(chunks + rest, text, limit)
  }

  /** `_split_slack_text` */
  method SplitText(text: string, limit: nat) returns (chunks: seq<string>)
    requires limit >= 1
    ensures Splits(chunks, text, limit)
  {
    chunks := [];
    var remaining := text;
    assert forall rest: seq<string> :: chunks + rest == rest;
    while |remaining| > limit
      invariant Started(chunks, remaining, text, limit)
      decreases |remaining|
    {
      var end := CutWindow(remaining[..limit]);
      AddChunk(chunks, text, remaining, limit, end);
      chunks := chunks + [remaining[..end]];
      remaining := remaining[end..];
    }
    assert Splits(if remaining == "" then [] else [remaining], remaining, limit);
    if remaining != "" {
      chunks := chunks + [remaining];
    } else {
      assert chunks + [] == chunks;
    }
  }

  lemma AddChunk(chunks: seq<string>, text: string, remaining: string, limit: nat, end: nat)
    requires limit < |remaining| && IsCut(remaining[..limit], end) && end <= limit
    requires Started(chunks, remaining, text, limit)
    ensures Started(chunks + [remaining[..end]], remaining[end..], text, limit)
  {
    forall rest | Splits(rest, remaining[end..], limit)
      ensures Splits(chunks + [remaining[..end]] + rest, text, limit)
    {
      var more := [remaining[..end]] + rest;
      assert more[1..] == rest && |more[0]| == end;
      assert Splits(more, remaining, limit);
      assert chunks + more == chunks + [remaining[..end]] + rest;
    }
  }

  /** Two line breaks in a row, a line break, or a space at position `i`. */
  predicate BlankLineAt(s: string, i: int) { 0 <= i < |s| - 1 && s[i] == '\n' && s[i + 1] == '\n' }

  predicate LineBreakAt(s: string, i: int) { 0 <= i < |s| && s[i] == '\n' }

  predicate SpaceAt(s: string, i: int) { 0 <= i < |s| && s[i] == ' ' }

  lemma Separators(s: string, i: int)
    ensures OccursAt(s, "\n\n", i) <==> BlankLineAt(s, i)
    ensures OccursAt(s, "\n", i) <==> LineBreakAt(s, i)
    ensures OccursAt(s, " ", i) <==> SpaceAt(s, i)
  {
    if 0 <= i < |s| - 1 {
      assert s[i..i + 2] == [s[i], s[i + 1]];
    }
    if 0 <= i < |s| {
      assert s[i..i + 1] == [s[i]];
    }
  }

  /**
   * Where a window is cut, by its characters. If its second half has a blank line, right after the last one; else
   * after its last line break there; else after its last space there; else at its end.
   */
  lemma CutExactly(window: string, end: int)
    requires IsCut(window, end)
    ensures
      var half := |window| / 2;
      if exists i :: half <= i && BlankLineAt(window, i) then
        half <= end - 2 && BlankLineAt(window, end - 2) && forall i :: end - 2 < i ==> !BlankLineAt(window, i)
      else if exists i :: half <= i && LineBreakAt(window, i) then
        half <= end - 1 && LineBreakAt(window, end - 1) && forall i :: end - 1 < i ==> !LineBreakAt(window, i)
      else if exists i :: half <= i && SpaceAt(window, i) then
        half <= end - 1 && SpaceAt(window, end - 1) && forall i :: end - 1 < i ==> !SpaceAt(window, i)
      else end == |window|
  {
    BlankLines(window, end);
    LineBreaks(window, end);
    Spaces(window, end);
  }

  lemma BlankLines(window: string, end: int)
    ensures Late(window, "\n\n") <==> exists i :: |window| / 2 <= i && BlankLineAt(window, i)
    ensures EndsLast(window, "\n\n", end) ==>
      |window| / 2 <= end - 2 && BlankLineAt(window, end - 2) && forall i :: end - 2 < i ==> !BlankLineAt(window, i)
  {
    forall i ensures OccursAt(window, "\n\n", i) <==> BlankLineAt(window, i) {
      Separators(window, i);
    }
  }

  lemma LineBreaks(window: string, end: int)
    ensures Late(window, "\n") <==> exists i :: |window| / 2 <= i && LineBreakAt(window, i)
    ensures EndsLast(window, "\n", end) ==>
      |window| / 2 <= end - 1 && LineBreakAt(window, end - 1) && forall i :: end - 1 < i ==> !LineBreakAt(window, i)
  {
    forall i ensures OccursAt(window, "\n", i) <==> LineBreakAt(window, i) {
      Separators(window, i);
    }
  }

  lemma Spaces(window: string, end: int)
    ensures Late(window, " ") <==> exists i :: |window| / 2 <= i && SpaceAt(window, i)
    ensures EndsLast(window, " ", end) ==>
      |window| / 2 <= end - 1 && SpaceAt(window, end - 1) && forall i :: end - 1 < i ==> !SpaceAt(window, i)
  {
    forall i ensures OccursAt(window, " ", i) <==> SpaceAt(window, i) {
      Separators(window, i);
    }
  }

  // ---- What a division is good for ------------------------------------------------------------------------

  function Join(parts: seq<string>): string {
    if parts == [] then "" else parts[0] + Join(parts[1..])
  }

  /** The chunks make up the text, fit the limit, and every chunk but the last fills more than half of it. */
  ghost predicate Chunked(chunks: seq<string>, text: string, limit: nat) {
    && Join(chunks) == text
    && (forall k :: 0 <= k < |chunks| ==> 1 <= |chunks[k]| <= limit)
    && (forall k :: 0 <= k < |chunks| - 1 ==> limit < 2 * |chunks[k]|)
  }

  lemma CutSize(window: string, end: int)
    requires IsCut(window, end) && window != ""
    ensures |window| / 2 < end <= |window|
  {}

  lemma {:induction false} SplitsChunks(chunks: seq<string>, text: string, limit: nat)
    requires Splits(chunks, text, limit) && limit >= 1
    ensures Chunked(chunks, text, limit)
    ensures text != "" ==> chunks != []
    decreases |chunks|
  {
    if |text| > limit {
      CutSize(text[..limit], |chunks[0]|);
      SplitsChunks(chunks[1..], text[|chunks[0]|..], limit);
      assert text == text[..|chunks[0]|] + text[|chunks[0]|..];
    } else if text != "" {
      assert chunks[1..] == [];
    }
  }

  /** Fewer than twice as many chunks as the text has limits, plus one. */
  lemma {:induction false} ChunkCount(chunks: seq<string>, text: string, limit: nat)
    requires Chunked(chunks, text, limit) && chunks != []
    ensures (|chunks| - 1) * (limit + 1) + 2 <= 2 * |text|
    decreases |chunks|
  {
    var rest := chunks[1..];
    assert Join(chunks) == chunks[0] + Join(rest);
    if rest != [] {
      ChunkCount(rest, Join(rest), limit);
      OneMore(|rest| - 1, limit + 1);
    } else {
      assert |chunks| == 1;
    }
  }

  /** The division is unique: no choice is left to the code. */
  lemma {:induction false} SplitsUnique(a: seq<string>, b: seq<string>, text: string, limit: nat)
    requires Splits(a, text, limit) && Splits(b, text, limit) && limit >= 1
    ensures a == b
    decreases |a|
  {
    if |text| > limit {
      CutUnique(text[..limit], |a[0]|, |b[0]|);
      SplitsUnique(a[1..], b[1..], text[|a[0]|..], limit);
      assert a == [a[0]] + a[1..] && b == [b[0]] + b[1..];
    }
  }

  lemma CutUnique(window: string, m: int, n: int)
    requires IsCut(window, m) && IsCut(window, n)
    ensures m == n
  {}

  // ---- Messages and footer ----------------------------------------------------------------------------------

  /** `text[:k]` for any integer `k`. */
  function Prefix(text: string, k: int): (r: string)
    ensures r <= text
    ensures k >= 0 ==> |r| == Min(k, |text|)
    ensures k < 0 ==> |r| == Max(0, |text| + k)
  {
    if k >= 0 then text[..Min(k, |text|)] else text[..Max(0, |text| + k)]
  }

  /** The part of the text that is delivered. */
  function Body(text: string, footer: string, messageMax: nat): string {
    Prefix(text, messageMax - |footer| - 2)
  }

  /** Nothing would be delivered, and the code raises instead. */
  predicate NothingLeft(text: string, footer: string, messageMax: nat) {
    || text == "" || |footer| + 2 == messageMax
    || (|footer| + 2 > messageMax && |text| <= |footer| + 2 - messageMax)
  }

  /**
   * The messages carry the body and then the footer: on the last chunk when it fits there, else alone. `last`
   * is the part of the body in the final message.
   */
  ghost predicate Carries(messages: seq<string>, last: string, body: string, footer: string, limit: nat) {
    && messages != []
    && (forall k :: 0 <= k < |messages| - 1 ==> 1 <= |messages[k]| <= limit)
    && Join(messages[..|messages| - 1]) + last == body
    && (if last == "" then messages[|messages| - 1] == footer
        else messages[|messages| - 1] == last + "\n\n" + footer && |messages[|messages| - 1]| <= limit)
  }

  /** Every message fits exactly when the footer alone does. */
  lemma FitsExactly(messages: seq<string>, last: string, body: string, footer: string, limit: nat)
    requires Carries(messages, last, body, footer, limit)
    ensures (forall k :: 0 <= k < |messages| ==> |messages[k]| <= limit) <==> |footer| <= limit
  {
    var end := |messages| - 1;
    if last == "" {
      assert |messages[end]| == |footer|;
    } else {
      assert |messages[end]| == |last| + 2 + |footer|;
    }
  }

  /** A footer one character too long for a Slack message, as a long enough user id makes it, is posted whole. */
  lemma OversizedFooter() returns (footer: string, messages: seq<string>)
    ensures Splits(["a"], Body("a", footer, SLACK_MESSAGE_MAX), SLACK_CHUNK_MAX)
    ensures WithFooter(messages, "", ["a"], footer, SLACK_CHUNK_MAX)
    ensures |messages| == 2 && |messages[1]| > SLACK_CHUNK_MAX
  {
    footer := seq(SLACK_CHUNK_MAX + 1, i => 'U');
    messages := ["a", footer];
    assert Body("a", footer, SLACK_MESSAGE_MAX) == "a";
  }

  lemma {:induction false} JoinInit(parts: seq<string>)
    requires parts != []
    ensures Join(parts) == Join(parts[..|parts| - 1]) + parts[|parts| - 1]
  {
    if |parts| > 1 {
      JoinInit(parts[1..]);
      assert parts[1..][..|parts| - 2] == parts[..|parts| - 1][1..];
    }
  }

  /** What a reader of all the messages sees: the body, an optional blank line, the footer. */
  lemma Reconstructs(messages: seq<string>, last: string, body: string, footer: string, limit: nat)
    requires Carries(messages, last, body, footer, limit)
    ensures Join(messages) == body + (if last == "" then "" else "\n\n") + footer
  {
    JoinInit(messages);
    var init := Join(messages[..|messages| - 1]);
    if last == "" {
      assert init + last == init;
    } else {
      assert init + (last + "\n\n" + footer) == (init + last) + "\n\n" + footer;
    }
  }

  /** The body is everything up to the overall maximum less the footer. */
  lemma BodyExactly(text: string, footer: string, messageMax: nat)
    ensures Body(text, footer, messageMax) == "" <==> NothingLeft(text, footer, messageMax)
    ensures text != "" ==> (Body(text, footer, messageMax) == text <==> |text| + |footer| + 2 <= messageMax)
    ensures |footer| + 2 <= messageMax ==> |Body(text, footer, messageMax)| + |footer| + 2 <= messageMax
  {}

  /** The footer joins the last chunk when it fits there. */
  ghost predicate WithFooter(messages: seq<string>, last: string, chunks: seq<string>, footer: string, limit: nat) {
    chunks != [] &&
    var final := chunks[|chunks| - 1];
    if |final| + 2 + |footer| <= limit then
      last == final && messages == chunks[..|chunks| - 1] + [final + ("\n\n" + footer)]
    else
      last == "" && messages == chunks + [footer]
  }

  lemma FooterCarries(messages: seq<string>, last: string, chunks: seq<string>, body: string, footer: string, limit: nat)
    requires Chunked(chunks, body, limit) && WithFooter(messages, last, chunks, footer, limit)
    ensures Carries(messages, last, body, footer, limit)
  {
    JoinInit(chunks);
    var init := chunks[..|chunks| - 1];
    if last == "" {
      assert messages[..|messages| - 1] == chunks;
    } else {
      assert messages[..|messages| - 1] == init;
      assert last + ("\n\n" + footer) == last + "\n\n" + footer;
    }
  }

  /** The assembly both destinations share; None is the raised index error. */
  method Assemble(text: string, footer: string, messageMax: nat, limit: nat)
    returns (messages: Option<seq<string>>, last: string, ghost chunks: seq<string>)
    requires limit >= 1
    ensures messages.None? <==> NothingLeft(text, footer, messageMax)
    ensures Splits(chunks, Body(text, footer, messageMax), limit)
    ensures messages.Some? ==> WithFooter(messages.value, last, chunks, footer, limit)
    ensures messages.Some? ==> Carries(messages.value, last, Body(text, footer, messageMax), footer, limit)
  {
    var suffix := "\n\n" + footer;
    var body := Prefix(text, messageMax - |suffix|);
    BodyExactly(text, footer, messageMax);
    var parts := SplitText(body, limit);
    SplitsChunks(parts, body, limit);
    chunks := parts;
    if parts == [] {
      return None, "", chunks;
    }
    last := parts[|parts| - 1];
    if |last| + |suffix| <= limit {
      messages := Some(parts[..|parts| - 1] + [last + suffix]);
    } else {
      last := "";
      messages := Some(parts + [footer]);
    }
    FooterCarries(messages.value, last, chunks, body, footer, limit);
  }

  datatype Block = Section(text: string) | Context(footer: string)

  datatype SlackMessage = SlackMessage(text: string, blocks: Option<seq<Block>>)

  /** The text of each block but the last. */
  function SectionTexts(blocks: seq<Block>): seq<string>
    requires blocks != []
  {
    seq(|blocks| - 1, i requires 0 <= i < |blocks| - 1 => if blocks[i].Section? then blocks[i].text else "")
  }

  /** Sections that fit and make up the body, then the footer. */
  ghost predicate Shows(blocks: seq<Block>, body: string, footer: string) {
    && blocks != [] && blocks[|blocks| - 1] == Context(footer)
    && (forall i :: 0 <= i < |blocks| - 1 ==> blocks[i].Section?)
    && Chunked(SectionTexts(blocks), body, 3000)
  }

  /** `_scheduled_task_blocks` */
  method TaskBlocks(body: string, footer: string) returns (blocks: seq<Block>)
    ensures Shows(blocks, body, footer)
  {
    var sections := SplitText(body, SLACK_SECTION_MAX);
    SplitsChunks(sections, body, SLACK_SECTION_MAX);
    blocks := seq(|sections|, i requires 0 <= i < |sections| => Section(sections[i])) + [Context(footer)];
    assert SectionTexts(blocks) == sections;
  }

  /** The messages of `_deliver_to_slack`; only the last has blocks, and they show what its text says. */
  method SlackMessages(text: string, footer: string) returns (posted: Option<seq<SlackMessage>>, last: string)
    ensures posted.None? <==> NothingLeft(text, footer, SLACK_MESSAGE_MAX)
    ensures posted.Some? ==>
              Carries(Texts(posted.value), last, Body(text, footer, 50000), footer, 3800)
    ensures posted.Some? ==> forall k :: 0 <= k < |posted.value| - 1 ==> posted.value[k].blocks.None?
    ensures posted.Some? ==> LastShows(posted.value, last, footer)
  {
    ghost var chunks;
    var messages;
    messages, last, chunks := Assemble(text, footer, SLACK_MESSAGE_MAX, SLACK_CHUNK_MAX);
    if messages.None? {
      return None, last;
    }
    var blocks := TaskBlocks(last, footer);
    posted := Some(WithBlocks(messages.value, blocks));
    PostedShow(messages.value, blocks, last, footer);
  }

  /** The messages to post: only the last one has blocks. */
  function WithBlocks(messages: seq<string>, blocks: seq<Block>): seq<SlackMessage> {
    seq(|messages|, i requires 0 <= i < |messages| =>
      SlackMessage(messages[i], if i < |messages| - 1 then None else Some(blocks)))
  }

  lemma PostedShow(messages: seq<string>, blocks: seq<Block>, last: string, footer: string)
    requires messages != [] && Shows(blocks, last, footer)
    ensures Texts(WithBlocks(messages, blocks)) == messages
    ensures LastShows(WithBlocks(messages, blocks), last, footer)
  {}

  ghost predicate LastShows(posted: seq<SlackMessage>, last: string, footer: string) {
    posted != [] && posted[|posted| - 1].blocks.Some? && Shows(posted[|posted| - 1].blocks.value, last, footer)
  }

  function Texts(posted: seq<SlackMessage>): seq<string> {
    seq(|posted|, i requires 0 <= i < |posted| => posted[i].text)
  }

  /** The messages of `_deliver_to_google_chat`. */
  method ChatMessages(text: string, footer: string) returns (posted: Option<seq<string>>, last: string)
    ensures posted.None? <==> NothingLeft(text, footer, GCHAT_MESSAGE_MAX)
    ensures posted.Some? ==> Carries(posted.value, last, Body(text, footer, 50000), footer, 4000)
  {
    ghost var chunks;
    posted, last, chunks := Assemble(text, footer, GCHAT_MESSAGE_MAX, GCHAT_CHUNK_MAX);
  }
}
