/**
 * The streamed assistant turn of crates/red-ai/src/anthropic.rs: `TurnAccumulator`, its
 * `handle_event` and `finish`. JSON parsing of tool arguments is a function parameter.
 */
module Turn {
  import opened Wrappers
  import opened JsonText

  // ----- JSON access -----

  function Find(fields: seq<Member>, key: string): Option<Json> {
    if fields == [] then None else if fields[0].name == key then Some(fields[0].value) else Find(fields[1..], key)
  }

  function Get(j: Option<Json>, key: string): Option<Json> {
    if j.Some? && j.value.JObj? then Find(j.value.fields, key) else None
  }

  function AsStr(j: Option<Json>): Option<string> {
    if j.Some? && j.value.JStr? then Some(j.value.s) else None
  }

  function AsU64(j: Option<Json>): Option<nat> {
    if j.Some? && j.value.JInt? && 0 <= j.value.n < 0x1_0000_0000_0000_0000 then Some(j.value.n) else None
  }

  function StrOr(s: Option<string>, other: string): string {
    if s.Some? then s.value else other
  }

  function CountOr0(usage: Option<Json>, key: string): nat {
    var n := AsU64(Get(usage, key));
    if n.Some? then n.value else 0
  }

  // ----- state -----

  datatype Block =
    | Text(text: string)
    | Thinking(text: string, signature: string)
    | Redacted(data: string)
    | ToolUse(id: string, name: string, json: string)
    | Compaction(content: string)

  datatype StopReason = EndTurn | UseTool | MaxTokens | Refusal | Other

  datatype Usage = Usage(input: nat, output: nat, cacheRead: nat)

  /** What goes to the panel while the turn streams. */
  datatype Delta = TextDelta(text: string) | ThinkingDelta(text: string) | ToolStarted(id: string, name: string)

  datatype Acc = Acc(
    blocks: seq<Block>, stop: Option<StopReason>, usage: Usage, refused: bool, error: Option<string>, stopped: bool, sent: seq<Delta>)

  const EMPTY := Acc([], None, Usage(0, 0, 0), false, None, false, [])

  const MAX_CONTENT_BLOCKS: nat := 1024

  function MapStop(s: string): StopReason {
    if s == "end_turn" || s == "stop_sequence" then EndTurn
    else if s == "tool_use" then UseTool
    else if s == "max_tokens" then MaxTokens
    else if s == "refusal" then Refusal
    else Other
  }

  // ----- error texts -----

  /** The length of a character in UTF-8. */
  function CharBytes(c: char): nat {
    var n := c as int;
    if n < 0x80 then 1 else if n < 0x800 then 2 else if n < 0x1_0000 then 3 else 4
  }

  function ByteLen(s: string): nat {
    if s == "" then 0 else CharBytes(s[0]) + ByteLen(s[1..])
  }

  /** As much of the front of `s` as fits into `max` bytes. */
  function Fitting(s: string, max: nat): string {
    if s == "" || CharBytes(s[0]) > max then "" else [s[0]] + Fitting(s[1..], max - CharBytes(s[0]))
  }

  const ELLIPSIS: char := 0x2026 as char

  /** `truncate`: whole characters up to `max` bytes. */
  function Truncated(s: string, max: nat): string {
    if ByteLen(s) <= max then s else Fitting(s, max) + [ELLIPSIS]
  }

  /** The cut falls on the last character boundary within the limit. */
  lemma {:induction false} FittingIsLongest(s: string, max: nat)
    ensures |Fitting(s, max)| <= |s| && Fitting(s, max) == s[..|Fitting(s, max)|] && ByteLen(Fitting(s, max)) <= max
    ensures |Fitting(s, max)| < |s| ==> ByteLen(Fitting(s, max)) + CharBytes(s[|Fitting(s, max)|]) > max
    decreases |s|
  {
    hide CharBytes;
    if s != "" && CharBytes(s[0]) <= max {
      var rest := Fitting(s[1..], max - CharBytes(s[0]));
      FittingIsLongest(s[1..], max - CharBytes(s[0]));
      assert ([s[0]] + rest)[1..] == rest;
      assert s[..1 + |rest|] == [s[0]] + s[1..][..|rest|];
    }
  }

  const ERROR_BYTES: nat := 400

  function ErrorText(kind: string, message: string): string {
    kind + ": " + Truncated(message, ERROR_BYTES)
  }

  // ----- one event -----

  function TypeOf(e: Json): Option<string> {
    AsStr(Get(Some(e), "type"))
  }

  function IndexOf(e: Json): nat {
    var n := AsU64(Get(Some(e), "index"));
    if n.Some? then n.value else 0
  }

  function NewBlock(cb: Option<Json>): Block {
    var kind := AsStr(Get(cb, "type"));
    if kind == Some("thinking") then Thinking("", "")
    else if kind == Some("redacted_thinking") then Redacted(StrOr(AsStr(Get(cb, "data")), ""))
    else if kind == Some("compaction") then Compaction(StrOr(AsStr(Get(cb, "content")), ""))
    else if kind == Some("tool_use") then ToolUse(StrOr(AsStr(Get(cb, "id")), ""), StrOr(AsStr(Get(cb, "name")), ""), "")
    else Text("")
  }

  /** `blocks` with room for index `n`, new places empty text. */
  function Padded(blocks: seq<Block>, n: nat): (r: seq<Block>)
    ensures |r| == if n < |blocks| then |blocks| else n + 1
    decreases n + 1 - |blocks|
  {
    if n < |blocks| then blocks else Padded(blocks + [Text("")], n)
  }

  function OnBlockStart(a: Acc, e: Json): Acc {
    var cb := Get(Some(e), "content_block");
    var block := NewBlock(cb);
    var b := if block.ToolUse? then a.(sent := a.sent + [ToolStarted(block.id, block.name)]) else a;
    var n := IndexOf(e);
    if n >= MAX_CONTENT_BLOCKS then b else b.(blocks := Padded(b.blocks, n)[n := block])
  }

  /** A delta applied to its block, and what it shows the user. */
  function Grown(block: Block, delta: Option<Json>): (Block, seq<Delta>) {
    var kind := AsStr(Get(delta, "type"));
    if kind == Some("text_delta") then
      match (block, AsStr(Get(delta, "text")))
      case (Text(s), Some(t)) => (Text(s + t), [TextDelta(t)])
      case (Compaction(s), Some(t)) => (Compaction(s + t), [])
      case _ => (block, [])
    else if kind == Some("thinking_delta") then
      match (block, AsStr(Get(delta, "thinking")))
      case (Thinking(s, sig), Some(t)) => (Thinking(s + t, sig), [ThinkingDelta(t)])
      case _ => (block, [])
    else if kind == Some("signature_delta") then
      match (block, AsStr(Get(delta, "signature")))
      case (Thinking(s, sig), Some(t)) => (Thinking(s, sig + t), [])
      case _ => (block, [])
    else if kind == Some("input_json_delta") then
      match (block, AsStr(Get(delta, "partial_json")))
      case (ToolUse(id, name, json), Some(t)) => (ToolUse(id, name, json + t), [])
      case _ => (block, [])
    else (block, [])
  }

  function OnBlockDelta(a: Acc, e: Json): Acc {
    var n := IndexOf(e);
    if n >= |a.blocks| then a
    else
      var (block, sent) := Grown(a.blocks[n], Get(Some(e), "delta"));
      a.(blocks := a.blocks[n := block], sent := a.sent + sent)
  }

  function OnMessageStart(a: Acc, e: Json): Acc {
    var u := Get(Get(Some(e), "message"), "usage");
    if u.Some? then a.(usage := Usage(CountOr0(u, "input_tokens"), a.usage.output, CountOr0(u, "cache_read_input_tokens"))) else a
  }

  /** The stop reason a `message_delta` carries. */
  function StopOf(e: Json): Option<string> {
    AsStr(Get(Get(Some(e), "delta"), "stop_reason"))
  }

  function OnMessageDelta(a: Acc, e: Json): Acc {
    var sr := StopOf(e);
    var b := if sr.Some? then a.(stop := Some(MapStop(sr.value)), refused := a.refused || sr.value == "refusal") else a;
    var u := Get(Some(e), "usage");
    if u.Some? then b.(usage := Usage(b.usage.input, CountOr0(u, "output_tokens"), b.usage.cacheRead)) else b
  }

  function OnError(a: Acc, e: Json): Acc {
    var err := Get(Some(e), "error");
    a.(error := Some(ErrorText(StrOr(AsStr(Get(err, "type")), "error"), StrOr(AsStr(Get(err, "message")), ""))))
  }

  function Handled(a: Acc, e: Json): Acc {
    var kind := TypeOf(e);
    if kind == Some("message_start") then OnMessageStart(a, e)
    else if kind == Some("content_block_start") then OnBlockStart(a, e)
    else if kind == Some("content_block_delta") then OnBlockDelta(a, e)
    else if kind == Some("message_delta") then OnMessageDelta(a, e)
    else if kind == Some("error") then OnError(a, e)
    else if kind == Some("message_stop") then a.(stopped := true)
    else a
  }

  function HandledAll(a: Acc, events: seq<Json>): Acc
    decreases |events|
  {
    if events == [] then a else HandledAll(Handled(a, events[0]), events[1..])
  }

  lemma {:induction false} HandledConcat(a: Acc, x: seq<Json>, y: seq<Json>)
    ensures HandledAll(a, x + y) == HandledAll(HandledAll(a, x), y)
    decreases |x|
  {
    hide Handled;
    if x == [] {
      assert x + y == y;
    } else {
      assert (x + y)[1..] == x[1..] + y;
      HandledConcat(Handled(a, x[0]), x[1..], y);
    }
  }

  // ----- the end of the turn -----

  datatype AiError = Provider(error: string) | Refused | Incomplete | BadToolInput(name: string) | Network(text: string) | Cancelled

  datatype Content =
    | TextContent(text: string)
    | ThinkingContent(text: string, signature: string)
    | RedactedContent(data: string)
    | CompactionContent(content: string)
    | ToolContent(id: string, name: string, input: Json)

  datatype Outcome = Outcome(content: seq<Content>, stop: StopReason, usage: Usage)

  /** The parser of tool arguments, and `str::trim().is_empty()`. */
  datatype Parser = Parser(parse: string -> Option<Json>, blank: string -> bool)

  function ToolInput(p: Parser, json: string): Option<Json> {
    if p.parse(json).Some? then p.parse(json) else if p.blank(json) then Some(JObj([])) else None
  }

  /** The last block whose tool arguments cannot be read. */
  function BadTool(p: Parser, blocks: seq<Block>): Option<string> {
    if blocks == [] then None
    else
      var b := blocks[|blocks| - 1];
      if b.ToolUse? && ToolInput(p, b.json).None? then Some(b.name) else BadTool(p, blocks[..|blocks| - 1])
  }

  function ContentOf(p: Parser, b: Block): seq<Content> {
    match b
    case Text(t) => if t == "" then [] else [TextContent(t)]
    case Thinking(t, sig) => [ThinkingContent(t, sig)]
    case Redacted(d) => [RedactedContent(d)]
    case Compaction(c) => [CompactionContent(c)]
    case ToolUse(id, name, json) => [ToolContent(id, name, if ToolInput(p, json).Some? then ToolInput(p, json).value else JObj([]))]
  }

  function ContentsOf(p: Parser, blocks: seq<Block>): seq<Content> {
    if blocks == [] then [] else ContentsOf(p, blocks[..|blocks| - 1]) + ContentOf(p, blocks[|blocks| - 1])
  }

  function Finished(p: Parser, a: Acc): Result<Outcome, AiError> {
    if a.error.Some? then Failure(Provider(a.error.value))
    else if a.refused then Failure(Refused)
    else if !a.stopped then Failure(Incomplete)
    else if BadTool(p, a.blocks).Some? then Failure(BadToolInput(BadTool(p, a.blocks).value))
    else Success(Outcome(ContentsOf(p, a.blocks), if a.stop.Some? then a.stop.value else EndTurn, a.usage))
  }

  // ----- the accumulator -----

  class TurnAccumulator {
    var blocks: seq<Block>
    var stop: Option<StopReason>
    var usage: Usage
    var refused: bool
    var error: Option<string>
    var stopped: bool
    var sent: seq<Delta>

    function View(): Acc
      reads this
    {
      Acc(blocks, stop, usage, refused, error, stopped, sent)
    }

    constructor ()
      ensures View() == EMPTY
    {
      blocks, stop, usage, refused, error, stopped, sent := [], None, Usage(0, 0, 0), false, None, false, [];
    }

    /** `handle_event`. */
    method HandleEvent(e: Json)
      modifies this
      ensures View() == Handled(old(View()), e)
    {
      hide Get, AsStr, AsU64, MapStop, Grown, NewBlock, StrOr, CountOr0, ErrorText;
      var kind := TypeOf(e);
      if kind == Some("message_start") {
        var u := Get(Get(Some(e), "message"), "usage");
        if u.Some? {
          usage := Usage(CountOr0(u, "input_tokens"), usage.output, CountOr0(u, "cache_read_input_tokens"));
        }
      } else if kind == Some("content_block_start") {
        var block := NewBlock(Get(Some(e), "content_block"));
        if block.ToolUse? {
          sent := sent + [ToolStarted(block.id, block.name)];
        }
        var n := IndexOf(e);
        if n >= MAX_CONTENT_BLOCKS {
          return;
        }
        blocks := Padded(blocks, n);
        blocks := blocks[n := block];
      } else if kind == Some("content_block_delta") {
        var n := IndexOf(e);
        if n >= |blocks| {
          return;
        }
        var (block, shown) := Grown(blocks[n], Get(Some(e), "delta"));
        blocks := blocks[n := block];
        sent := sent + shown;
      } else if kind == Some("message_delta") {
        var sr := StopOf(e);
        if sr.Some? {
          stop := Some(MapStop(sr.value));
          if sr.value == "refusal" {
            refused := true;
          }
        }
        var u := Get(Some(e), "usage");
        if u.Some? {
          usage := Usage(usage.input, CountOr0(u, "output_tokens"), usage.cacheRead);
        }
      } else if kind == Some("error") {
        var err := Get(Some(e), "error");
        error := Some(ErrorText(StrOr(AsStr(Get(err, "type")), "error"), StrOr(AsStr(Get(err, "message")), "")));
      } else if kind == Some("message_stop") {
        stopped := true;
      }
    }

    /** `finish`. */
    method Finish(p: Parser) returns (r: Result<Outcome, AiError>)
      ensures r == Finished(p, View())
    {
      hide ContentOf, ToolInput;
      if error.Some? {
        return Failure(Provider(error.value));
      }
      if refused {
        return Failure(Refused);
      }
      if !stopped {
        return Failure(Incomplete);
      }
      var bad: Option<string> := None;
      var content: seq<Content> := [];
      for i := 0 to |blocks|
        invariant bad == BadTool(p, blocks[..i]) && content == ContentsOf(p, blocks[..i])
      {
        var b := blocks[i];
        assert blocks[..i + 1][..i] == blocks[..i];
        if b.ToolUse? && ToolInput(p, b.json).None? {
          bad := Some(b.name);
        }
        content := content + ContentOf(p, b);
      }
      assert blocks[..|blocks|] == blocks;
      if bad.Some? {
        return Failure(BadToolInput(bad.value));
      }
      return Success(Outcome(content, if stop.Some? then stop.value else EndTurn, usage));
    }
  }

  // ----- when a turn counts as finished -----

  predicate Saw(events: seq<Json>, kind: string) {
    exists k :: 0 <= k < |events| && TypeOf(events[k]) == Some(kind)
  }

  predicate IsRefusal(e: Json) {
    TypeOf(e) == Some("message_delta") && StopOf(e) == Some("refusal")
  }

  predicate SawRefusal(events: seq<Json>) {
    exists k :: 0 <= k < |events| && IsRefusal(events[k])
  }

  /** All tool arguments can be read, or are blank. */
  predicate ToolsReadable(p: Parser, blocks: seq<Block>) {
    forall k :: 0 <= k < |blocks| && blocks[k].ToolUse? ==> p.parse(blocks[k].json).Some? || p.blank(blocks[k].json)
  }

  lemma {:induction false} BadToolExactly(p: Parser, blocks: seq<Block>)
    ensures BadTool(p, blocks).None? <==> ToolsReadable(p, blocks)
    decreases |blocks|
  {
    if blocks != [] {
      var front := blocks[..|blocks| - 1];
      BadToolExactly(p, front);
      if ToolsReadable(p, front) {
        forall k | 0 <= k < |blocks| - 1 && blocks[k].ToolUse? ensures p.parse(blocks[k].json).Some? || p.blank(blocks[k].json) {
          assert front[k] == blocks[k];
        }
      }
    }
  }

  /** Between `a` and `b` no flag moved, and the blocks stayed few. */
  predicate SameFlags(a: Acc, b: Acc) {
    && b.stopped == a.stopped && b.error == a.error && b.refused == a.refused
    && (|a.blocks| <= MAX_CONTENT_BLOCKS ==> |b.blocks| <= MAX_CONTENT_BLOCKS)
  }

  lemma BlockFlags(a: Acc, e: Json)
    ensures SameFlags(a, OnMessageStart(a, e)) && SameFlags(a, OnBlockStart(a, e)) && SameFlags(a, OnBlockDelta(a, e))
  {
    hide Get, AsStr, AsU64, Grown, NewBlock, CountOr0;
  }

  lemma MessageFlags(a: Acc, e: Json)
    ensures SameFlags(a.(refused := a.refused || StopOf(e) == Some("refusal")), OnMessageDelta(a, e))
  {
    hide Get, AsStr, CountOr0, MapStop;
  }

  /** One event moves each flag only for its own kind. */
  lemma HandledFlags(a: Acc, e: Json)
    ensures var b := Handled(a, e);
            && b.stopped == (a.stopped || TypeOf(e) == Some("message_stop"))
            && b.error.Some? == (a.error.Some? || TypeOf(e) == Some("error"))
            && b.refused == (a.refused || IsRefusal(e))
            && (|a.blocks| <= MAX_CONTENT_BLOCKS ==> |b.blocks| <= MAX_CONTENT_BLOCKS)
  {
    hide TypeOf, StopOf, Get, AsStr, StrOr, ErrorText, OnMessageStart, OnBlockStart, OnBlockDelta, OnMessageDelta;
    BlockFlags(a, e);
    MessageFlags(a, e);
  }

  lemma SawConcat(e: Json, events: seq<Json>, kind: string)
    ensures Saw([e] + events, kind) <==> TypeOf(e) == Some(kind) || Saw(events, kind)
  {
    hide TypeOf;
    var all := [e] + events;
    if TypeOf(e) == Some(kind) {
      assert TypeOf(all[0]) == Some(kind);
    }
    if Saw(events, kind) {
      var k :| 0 <= k < |events| && TypeOf(events[k]) == Some(kind);
      assert all[k + 1] == events[k];
    }
  }

  lemma RefusalConcat(e: Json, events: seq<Json>)
    ensures SawRefusal([e] + events) <==> IsRefusal(e) || SawRefusal(events)
  {
    hide IsRefusal;
    var all := [e] + events;
    if IsRefusal(e) {
      assert IsRefusal(all[0]);
    }
    if SawRefusal(events) {
      var k :| 0 <= k < |events| && IsRefusal(events[k]);
      assert all[k + 1] == events[k];
    }
  }

  lemma {:induction false} AllFlags(a: Acc, events: seq<Json>)
    requires |a.blocks| <= MAX_CONTENT_BLOCKS
    ensures var b := HandledAll(a, events);
            && b.stopped == (a.stopped || Saw(events, "message_stop"))
            && b.error.Some? == (a.error.Some? || Saw(events, "error"))
            && b.refused == (a.refused || SawRefusal(events))
            && |b.blocks| <= MAX_CONTENT_BLOCKS
    decreases |events|
  {
    hide Handled, Saw, SawRefusal, TypeOf, IsRefusal;
    if events == [] {
      SawNothing();
    } else {
      HandledFlags(a, events[0]);
      AllFlags(Handled(a, events[0]), events[1..]);
      assert events == [events[0]] + events[1..];
      SawConcat(events[0], events[1..], "message_stop");
      SawConcat(events[0], events[1..], "error");
      RefusalConcat(events[0], events[1..]);
    }
  }

  lemma SawNothing()
    ensures !Saw([], "message_stop") && !Saw([], "error") && !SawRefusal([])
  {
  }

  /** A turn finishes exactly when it was stopped, unrefused, free of error frames and all its tool input can be read. */
  lemma FinishesExactly(p: Parser, events: seq<Json>)
    ensures Finished(p, HandledAll(EMPTY, events)).Success? <==>
            && Saw(events, "message_stop") && !Saw(events, "error") && !SawRefusal(events)
            && ToolsReadable(p, HandledAll(EMPTY, events).blocks)
    ensures |HandledAll(EMPTY, events).blocks| <= MAX_CONTENT_BLOCKS
  {
    hide HandledAll, Saw, SawRefusal, BadTool, ToolsReadable, ContentsOf;
    AllFlags(EMPTY, events);
    BadToolExactly(p, HandledAll(EMPTY, events).blocks);
  }

  // ----- tool arguments arrive whole -----

  /** The piece of tool arguments an event carries for block `n`. */
  function Fragment(e: Json, n: nat): string {
    var delta := Get(Some(e), "delta");
    if TypeOf(e) == Some("content_block_delta") && IndexOf(e) == n && AsStr(Get(delta, "type")) == Some("input_json_delta")
    then StrOr(AsStr(Get(delta, "partial_json")), "")
    else ""
  }

  function Fragments(events: seq<Json>, n: nat): string {
    if events == [] then "" else Fragment(events[0], n) + Fragments(events[1..], n)
  }

  predicate Restarts(e: Json, n: nat) {
    TypeOf(e) == Some("content_block_start") && IndexOf(e) == n
  }

  lemma {:induction false} PaddedKeeps(blocks: seq<Block>, m: nat, n: nat)
    requires n < |blocks|
    ensures n < |Padded(blocks, m)| && Padded(blocks, m)[n] == blocks[n]
    decreases m + 1 - |blocks|
  {
    if m >= |blocks| {
      PaddedKeeps(blocks + [Text("")], m, n);
    }
  }

  lemma GrownTool(t: Block, delta: Option<Json>)
    requires t.ToolUse?
    ensures Grown(t, delta).0 ==
            ToolUse(t.id, t.name, t.json + if AsStr(Get(delta, "type")) == Some("input_json_delta") then StrOr(AsStr(Get(delta, "partial_json")), "") else "")
  {
    hide Get, AsStr;
    assert t.json + "" == t.json;
  }

  lemma FragmentGrows(a: Acc, e: Json, n: nat)
    requires n < |a.blocks| && a.blocks[n].ToolUse? && !Restarts(e, n)
    ensures var b := Handled(a, e); var t := a.blocks[n];
            n < |b.blocks| && b.blocks[n] == ToolUse(t.id, t.name, t.json + Fragment(e, n))
  {
    hide Get, AsStr, StrOr, NewBlock, CountOr0, MapStop, Padded, Grown, TypeOf, IndexOf, StopOf, ErrorText;
    PaddedKeeps(a.blocks, IndexOf(e), n);
    var t := a.blocks[n];
    GrownTool(t, Get(Some(e), "delta"));
    assert t.json + "" == t.json;
  }

  /**
   * However a turn's blocks interleave, the arguments of a tool block are the fragments
   * sent for its index, in order, and nothing else.
   */
  lemma {:induction false} ToolArgumentsWhole(a: Acc, events: seq<Json>, n: nat)
    requires n < |a.blocks| && a.blocks[n].ToolUse?
    requires forall k :: 0 <= k < |events| ==> !Restarts(events[k], n)
    ensures var b := HandledAll(a, events); var t := a.blocks[n];
            n < |b.blocks| && b.blocks[n] == ToolUse(t.id, t.name, t.json + Fragments(events, n))
    decreases |events|
  {
    hide Handled, Fragment, Restarts;
    var t := a.blocks[n];
    if events == [] {
      assert t.json + "" == t.json;
    } else {
      FragmentGrows(a, events[0], n);
      ToolArgumentsWhole(Handled(a, events[0]), events[1..], n);
      assert t.json + Fragment(events[0], n) + Fragments(events[1..], n) == t.json + Fragments(events, n);
    }
  }
}
