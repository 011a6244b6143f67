/**
 * What a streamed turn amounts to, frame by frame: the frames of the messages API as their own
 * datatype, and for any sequence of them what the accumulator of crates/red-ai/src/anthropic.rs
 * holds, shows and returns.
 */
module TurnWhole {
  import opened Wrappers
  import opened JsonText
  import opened Turn

  // ----- frames -----

  datatype PieceKind = TextPiece | ThinkingPiece | SignaturePiece | InputPiece

  datatype Frame =
    | Begin(input: nat, cacheRead: nat)
    | Open(n: nat, block: Block)
    | Piece(n: nat, kind: PieceKind, text: string)
    | Status(reason: Option<string>, output: Option<nat>)
    | Broken(fault: string, message: string)
    | Stop
    | Ping(name: string)

  /** The one field `key` of the object `j` holds `v`. */
  ghost predicate Has(j: Json, key: string, v: Json) {
    j.JObj? && exists k :: 0 <= k < |j.fields| && j.fields[k] == Member(key, v) && forall i :: 0 <= i < |j.fields| && i != k ==> j.fields[i].name != key
  }

  ghost predicate Lacks(j: Json, key: string) {
    j.JObj? && forall i :: 0 <= i < |j.fields| ==> j.fields[i].name != key
  }

  /** A count, 0 when it is not given. */
  ghost predicate HasCount(j: Json, key: string, n: nat) {
    (Has(j, key, JInt(n)) && n < 0x1_0000_0000_0000_0000) || (n == 0 && Lacks(j, key))
  }

  /** The `content_block` of an opening frame. */
  ghost predicate Announces(cb: Json, block: Block) {
    match block
    case Text(t) => t == "" && Has(cb, "type", JStr("text"))
    case Thinking(t, sig) => t == "" && sig == "" && Has(cb, "type", JStr("thinking"))
    case Redacted(data) => Has(cb, "type", JStr("redacted_thinking")) && Has(cb, "data", JStr(data))
    case Compaction(content) => Has(cb, "type", JStr("compaction")) && Has(cb, "content", JStr(content))
    case ToolUse(id, name, json) => json == "" && Has(cb, "type", JStr("tool_use")) && Has(cb, "id", JStr(id)) && Has(cb, "name", JStr(name))
  }

  ghost predicate Brings(delta: Json, kind: PieceKind, text: string) {
    match kind
    case TextPiece => Has(delta, "type", JStr("text_delta")) && Has(delta, "text", JStr(text))
    case ThinkingPiece => Has(delta, "type", JStr("thinking_delta")) && Has(delta, "thinking", JStr(text))
    case SignaturePiece => Has(delta, "type", JStr("signature_delta")) && Has(delta, "signature", JStr(text))
    case InputPiece => Has(delta, "type", JStr("input_json_delta")) && Has(delta, "partial_json", JStr(text))
  }

  predicate IsKnown(kind: string) {
    || kind == "message_start" || kind == "content_block_start" || kind == "content_block_delta"
    || kind == "message_delta" || kind == "error" || kind == "message_stop"
  }

  /** Which JSON object is which frame. */
  ghost predicate Means(e: Json, f: Frame) {
    match f
    case Begin(input, cacheRead) =>
      && Has(e, "type", JStr("message_start"))
      && exists m, u :: Has(e, "message", m) && Has(m, "usage", u) && HasCount(u, "input_tokens", input) && HasCount(u, "cache_read_input_tokens", cacheRead)
    case Open(n, block) =>
      && Has(e, "type", JStr("content_block_start")) && HasCount(e, "index", n)
      && exists cb :: Has(e, "content_block", cb) && Announces(cb, block)
    case Piece(n, kind, text) =>
      && Has(e, "type", JStr("content_block_delta")) && HasCount(e, "index", n)
      && exists delta :: Has(e, "delta", delta) && Brings(delta, kind, text)
    case Status(reason, output) =>
      && Has(e, "type", JStr("message_delta"))
      && (match reason
          case Some(r) => exists delta :: Has(e, "delta", delta) && Has(delta, "stop_reason", JStr(r))
          case None => Lacks(e, "delta") || exists delta :: Has(e, "delta", delta) && Lacks(delta, "stop_reason"))
      && (match output
          case Some(n) => exists u :: Has(e, "usage", u) && HasCount(u, "output_tokens", n)
          case None => Lacks(e, "usage"))
    case Broken(kind, message) =>
      && Has(e, "type", JStr("error"))
      && exists err :: Has(e, "error", err) && Has(err, "type", JStr(kind)) && Has(err, "message", JStr(message))
    case Stop => Has(e, "type", JStr("message_stop"))
    case Ping(kind) => Has(e, "type", JStr(kind)) && !IsKnown(kind)
  }

  ghost predicate MeansAll(es: seq<Json>, fs: seq<Frame>) {
    |es| == |fs| && forall k :: 0 <= k < |fs| ==> Means(es[k], fs[k])
  }

  // ----- reading frames -----

  lemma {:induction false} FindHas(fields: seq<Member>, key: string, k: nat)
    requires k < |fields| && fields[k].name == key && forall i :: 0 <= i < |fields| && i != k ==> fields[i].name != key
    ensures Find(fields, key) == Some(fields[k].value)
    decreases |fields|
  {
    if k > 0 {
      assert fields[0].name != key;
      FindHas(fields[1..], key, k - 1);
    }
  }

  lemma {:induction false} FindLacks(fields: seq<Member>, key: string)
    requires forall i :: 0 <= i < |fields| ==> fields[i].name != key
    ensures Find(fields, key) == None
    decreases |fields|
  {
    if fields != [] {
      FindLacks(fields[1..], key);
    }
  }

  lemma GetHas(j: Json, key: string, v: Json)
    requires Has(j, key, v)
    ensures Get(Some(j), key) == Some(v)
  {
    var k :| 0 <= k < |j.fields| && j.fields[k] == Member(key, v) && forall i :: 0 <= i < |j.fields| && i != k ==> j.fields[i].name != key;
    FindHas(j.fields, key, k);
  }

  lemma GetLacks(j: Json, key: string)
    requires Lacks(j, key)
    ensures Get(Some(j), key) == None
  {
    FindLacks(j.fields, key);
  }

  lemma GetNone(key: string)
    ensures Get(None, key) == None
  {
  }

  lemma CountRead(j: Json, key: string, n: nat)
    requires HasCount(j, key, n)
    ensures CountOr0(Some(j), key) == n
  {
    hide Get, Has, Lacks;
    if Has(j, key, JInt(n)) && n < 0x1_0000_0000_0000_0000 {
      GetHas(j, key, JInt(n));
    } else {
      GetLacks(j, key);
    }
  }

  lemma IndexRead(e: Json, n: nat)
    requires HasCount(e, "index", n)
    ensures IndexOf(e) == n
  {
    hide Get, Has, Lacks;
    CountRead(e, "index", n);
  }

  // ----- what a frame does -----

  /** The text after a piece for its own kind of block. */
  function Extended(block: Block, kind: PieceKind, t: string): Block {
    match (block, kind)
    case (Text(s), TextPiece) => Text(s + t)
    case (Compaction(s), TextPiece) => Compaction(s + t)
    case (Thinking(s, sig), ThinkingPiece) => Thinking(s + t, sig)
    case (Thinking(s, sig), SignaturePiece) => Thinking(s, sig + t)
    case (ToolUse(id, name, json), InputPiece) => ToolUse(id, name, json + t)
    case _ => block
  }

  /** Only answers and thoughts are shown. */
  function ShownBy(block: Block, kind: PieceKind, t: string): seq<Delta> {
    if block.Text? && kind.TextPiece? then [TextDelta(t)]
    else if block.Thinking? && kind.ThinkingPiece? then [ThinkingDelta(t)]
    else []
  }

  /** `blocks` with `block` at `n`, any new place before it an empty text. */
  function Placed(blocks: seq<Block>, n: nat, block: Block): seq<Block> {
    var size := if n < |blocks| then |blocks| else n + 1;
    seq(size, k requires 0 <= k < size => if k == n then block else if k < |blocks| then blocks[k] else Text(""))
  }

  function Reason(s: string): StopReason {
    match s
    case "end_turn" => EndTurn
    case "stop_sequence" => EndTurn
    case "tool_use" => UseTool
    case "max_tokens" => MaxTokens
    case "refusal" => Refusal
    case _ => Other
  }

  function Taken(a: Acc, f: Frame): Acc {
    match f
    case Begin(input, cacheRead) => a.(usage := Usage(input, a.usage.output, cacheRead))
    case Open(n, block) =>
      var sent := if block.ToolUse? then a.sent + [ToolStarted(block.id, block.name)] else a.sent;
      a.(sent := sent, blocks := if n < 1024 then Placed(a.blocks, n, block) else a.blocks)
    case Piece(n, kind, t) =>
      if n < |a.blocks|
      then a.(blocks := a.blocks[n := Extended(a.blocks[n], kind, t)], sent := a.sent + ShownBy(a.blocks[n], kind, t))
      else a
    case Status(reason, output) =>
      a.(stop := if reason.Some? then Some(Reason(reason.value)) else a.stop,
         refused := a.refused || reason == Some("refusal"),
         usage := if output.Some? then Usage(a.usage.input, output.value, a.usage.cacheRead) else a.usage)
    case Broken(kind, message) => a.(error := Some(ErrorText(kind, message)))
    case Stop => a.(stopped := true)
    case Ping(_) => a
  }

  function TakenAll(a: Acc, fs: seq<Frame>): Acc
    decreases |fs|
  {
    if fs == [] then a else TakenAll(Taken(a, fs[0]), fs[1..])
  }

  lemma {:induction false} PaddedIs(blocks: seq<Block>, n: nat, block: Block)
    ensures Padded(blocks, n)[n := block] == Placed(blocks, n, block)
    decreases n + 1 - |blocks|
  {
    if n >= |blocks| {
      PaddedIs(blocks + [Text("")], n, block);
      assert Placed(blocks + [Text("")], n, block) == Placed(blocks, n, block);
    }
  }

  lemma TypeIs(e: Json, kind: string)
    requires Has(e, "type", JStr(kind))
    ensures TypeOf(e) == Some(kind)
  {
    hide Get, Has;
    GetHas(e, "type", JStr(kind));
  }

  lemma TakesBegin(a: Acc, e: Json, f: Frame)
    requires f.Begin? && Means(e, f)
    ensures Handled(a, e) == Taken(a, f)
  {
    hide Get, Has, HasCount, CountOr0, TypeOf, OnBlockStart, OnBlockDelta, OnMessageDelta, OnError;
    TypeIs(e, "message_start");
    var m, u :| Has(e, "message", m) && Has(m, "usage", u) && HasCount(u, "input_tokens", f.input) && HasCount(u, "cache_read_input_tokens", f.cacheRead);
    GetHas(e, "message", m);
    GetHas(m, "usage", u);
    CountRead(u, "input_tokens", f.input);
    CountRead(u, "cache_read_input_tokens", f.cacheRead);
  }

  lemma BlockRead(cb: Json, block: Block)
    requires Announces(cb, block)
    ensures NewBlock(Some(cb)) == block
  {
    hide Get, Has;
    match block
    case Text(_) => GetHas(cb, "type", JStr("text"));
    case Thinking(_, _) => GetHas(cb, "type", JStr("thinking"));
    case Redacted(data) =>
      GetHas(cb, "type", JStr("redacted_thinking"));
      GetHas(cb, "data", JStr(data));
    case Compaction(content) =>
      GetHas(cb, "type", JStr("compaction"));
      GetHas(cb, "content", JStr(content));
    case ToolUse(id, name, _) =>
      GetHas(cb, "type", JStr("tool_use"));
      GetHas(cb, "id", JStr(id));
      GetHas(cb, "name", JStr(name));
  }

  lemma TakesOpen(a: Acc, e: Json, f: Frame)
    requires f.Open? && Means(e, f)
    ensures Handled(a, e) == Taken(a, f)
  {
    hide Get, Has, HasCount, TypeOf, IndexOf, NewBlock, Announces, Padded, Placed, OnMessageStart, OnBlockDelta, OnMessageDelta, OnError;
    assert "content_block_start"[0] != "message_start"[0];
    TypeIs(e, "content_block_start");
    IndexRead(e, f.n);
    var cb :| Has(e, "content_block", cb) && Announces(cb, f.block);
    GetHas(e, "content_block", cb);
    BlockRead(cb, f.block);
    PaddedIs(a.blocks, f.n, f.block);
  }

  lemma PieceRead(block: Block, delta: Json, kind: PieceKind, text: string)
    requires Brings(delta, kind, text)
    ensures Grown(block, Some(delta)) == (Extended(block, kind, text), ShownBy(block, kind, text))
  {
    hide Get, Has;
    match kind
    case TextPiece =>
      GetHas(delta, "type", JStr("text_delta"));
      GetHas(delta, "text", JStr(text));
    case ThinkingPiece =>
      GetHas(delta, "type", JStr("thinking_delta"));
      GetHas(delta, "thinking", JStr(text));
    case SignaturePiece =>
      GetHas(delta, "type", JStr("signature_delta"));
      GetHas(delta, "signature", JStr(text));
    case InputPiece =>
      GetHas(delta, "type", JStr("input_json_delta"));
      GetHas(delta, "partial_json", JStr(text));
  }

  lemma TakesPiece(a: Acc, e: Json, f: Frame)
    requires f.Piece? && Means(e, f)
    ensures Handled(a, e) == Taken(a, f)
  {
    hide Get, Has, HasCount, TypeOf, IndexOf, Brings, Grown, Extended, ShownBy, OnMessageStart, OnBlockStart, OnMessageDelta, OnError;
    TypeIs(e, "content_block_delta");
    IndexRead(e, f.n);
    var delta :| Has(e, "delta", delta) && Brings(delta, f.kind, f.text);
    GetHas(e, "delta", delta);
    if f.n < |a.blocks| {
      PieceRead(a.blocks[f.n], delta, f.kind, f.text);
    }
  }

  lemma ReasonRead(e: Json, reason: Option<string>, output: Option<nat>)
    requires Means(e, Status(reason, output))
    ensures StopOf(e) == reason
  {
    hide Get, Has, Lacks, HasCount;
    if reason.Some? {
      var delta :| Has(e, "delta", delta) && Has(delta, "stop_reason", JStr(reason.value));
      GetHas(e, "delta", delta);
      GetHas(delta, "stop_reason", JStr(reason.value));
    } else if Lacks(e, "delta") {
      GetLacks(e, "delta");
      GetNone("stop_reason");
    } else {
      var delta :| Has(e, "delta", delta) && Lacks(delta, "stop_reason");
      GetHas(e, "delta", delta);
      GetLacks(delta, "stop_reason");
    }
  }

  lemma ReasonIs(s: string)
    ensures MapStop(s) == Reason(s)
  {
  }

  lemma TakesStatus(a: Acc, e: Json, f: Frame)
    requires f.Status? && Means(e, f)
    ensures Handled(a, e) == Taken(a, f)
  {
    hide Get, Has, Lacks, HasCount, TypeOf, StopOf, CountOr0, MapStop, Reason, OnMessageStart, OnBlockStart, OnBlockDelta, OnError;
    assert "message_delta"[8] != "message_start"[8];
    TypeIs(e, "message_delta");
    ReasonRead(e, f.reason, f.output);
    if f.reason.Some? {
      ReasonIs(f.reason.value);
    }
    if f.output.Some? {
      var u :| Has(e, "usage", u) && HasCount(u, "output_tokens", f.output.value);
      GetHas(e, "usage", u);
      CountRead(u, "output_tokens", f.output.value);
    } else {
      GetLacks(e, "usage");
    }
  }

  lemma TakesBroken(a: Acc, e: Json, f: Frame)
    requires f.Broken? && Means(e, f)
    ensures Handled(a, e) == Taken(a, f)
  {
    hide Get, Has, TypeOf, ErrorText, OnMessageStart, OnBlockStart, OnBlockDelta, OnMessageDelta;
    TypeIs(e, "error");
    var err :| Has(e, "error", err) && Has(err, "type", JStr(f.fault)) && Has(err, "message", JStr(f.message));
    GetHas(e, "error", err);
    GetHas(err, "type", JStr(f.fault));
    GetHas(err, "message", JStr(f.message));
  }

  lemma TakesOther(a: Acc, e: Json, f: Frame)
    requires (f.Stop? || f.Ping?) && Means(e, f)
    ensures Handled(a, e) == Taken(a, f)
  {
    hide Get, Has, TypeOf, OnMessageStart, OnBlockStart, OnBlockDelta, OnMessageDelta, OnError;
    TypeIs(e, if f.Stop? then "message_stop" else f.name);
  }

  lemma TakesFrame(a: Acc, e: Json, f: Frame)
    requires Means(e, f)
    ensures Handled(a, e) == Taken(a, f)
  {
    hide Handled, Taken, Means;
    match f
    case Begin(_, _) => TakesBegin(a, e, f);
    case Open(_, _) => TakesOpen(a, e, f);
    case Piece(_, _, _) => TakesPiece(a, e, f);
    case Status(_, _) => TakesStatus(a, e, f);
    case Broken(_, _) => TakesBroken(a, e, f);
    case _ => TakesOther(a, e, f);
  }

  lemma {:induction false} FramesTaken(a: Acc, es: seq<Json>, fs: seq<Frame>)
    requires MeansAll(es, fs)
    ensures HandledAll(a, es) == TakenAll(a, fs)
    decreases |fs|
  {
    hide Handled, Taken, Means;
    if fs != [] {
      assert Means(es[0], fs[0]);
      TakesFrame(a, es[0], fs[0]);
      FramesTaken(Handled(a, es[0]), es[1..], fs[1..]);
    }
  }

  // ----- blocks -----

  /** What was sent for block `n`, of one kind, in order. */
  function Pieces(fs: seq<Frame>, n: nat, kind: PieceKind): string {
    if fs == [] then ""
    else (if fs[0].Piece? && fs[0].n == n && fs[0].kind == kind then fs[0].text else "") + Pieces(fs[1..], n, kind)
  }

  /** A block with everything sent for it: its opening text, then its pieces. */
  function Whole(block: Block, fs: seq<Frame>, n: nat): Block {
    match block
    case Text(s) => Text(s + Pieces(fs, n, TextPiece))
    case Compaction(s) => Compaction(s + Pieces(fs, n, TextPiece))
    case Thinking(s, sig) => Thinking(s + Pieces(fs, n, ThinkingPiece), sig + Pieces(fs, n, SignaturePiece))
    case ToolUse(id, name, json) => ToolUse(id, name, json + Pieces(fs, n, InputPiece))
    case Redacted(data) => Redacted(data)
  }

  predicate NeverOpens(fs: seq<Frame>, n: nat) {
    forall k :: 0 <= k < |fs| && fs[k].Open? ==> fs[k].n != n
  }

  lemma BlockStep(a: Acc, f: Frame, n: nat)
    requires n < |a.blocks| && !(f.Open? && f.n == n)
    ensures n < |Taken(a, f).blocks|
    ensures Taken(a, f).blocks[n] == if f.Piece? && f.n == n then Extended(a.blocks[n], f.kind, f.text) else a.blocks[n]
  {
    hide ErrorText, Reason, Extended, ShownBy;
  }

  lemma NoPieces(block: Block, n: nat)
    ensures Whole(block, [], n) == block
  {
  }

  lemma PiecesStep(fs: seq<Frame>, n: nat, kind: PieceKind)
    requires fs != []
    ensures Pieces(fs, n, kind) == (if fs[0].Piece? && fs[0].n == n && fs[0].kind == kind then fs[0].text else "") + Pieces(fs[1..], n, kind)
  {
  }

  lemma Joins(s: string, t: string, u: string)
    ensures (s + t) + u == s + (t + u) && s + ("" + u) == s + u
  {
  }

  lemma WholeStep(block: Block, fs: seq<Frame>, n: nat)
    requires fs != []
    ensures var f := fs[0];
            Whole(block, fs, n) == Whole(if f.Piece? && f.n == n then Extended(block, f.kind, f.text) else block, fs[1..], n)
  {
    hide Pieces;
    forall kind ensures Pieces(fs, n, kind) == (if fs[0].Piece? && fs[0].n == n && fs[0].kind == kind then fs[0].text else "") + Pieces(fs[1..], n, kind) {
      PiecesStep(fs, n, kind);
    }
    var f := fs[0];
    var t := if f.Piece? then f.text else "";
    match block
    case Text(s) => Joins(s, t, Pieces(fs[1..], n, TextPiece));
    case Compaction(s) => Joins(s, t, Pieces(fs[1..], n, TextPiece));
    case Thinking(s, sig) =>
      Joins(s, t, Pieces(fs[1..], n, ThinkingPiece));
      Joins(sig, t, Pieces(fs[1..], n, SignaturePiece));
    case ToolUse(_, _, json) => Joins(json, t, Pieces(fs[1..], n, InputPiece));
    case Redacted(_) =>
  }

  lemma {:induction false} BlockGrows(a: Acc, fs: seq<Frame>, n: nat)
    requires n < |a.blocks| && NeverOpens(fs, n)
    ensures n < |TakenAll(a, fs).blocks| && TakenAll(a, fs).blocks[n] == Whole(a.blocks[n], fs, n)
    decreases |fs|
  {
    hide Taken, Whole, Extended;
    if fs == [] {
      NoPieces(a.blocks[n], n);
    } else {
      BlockStep(a, fs[0], n);
      BlockGrows(Taken(a, fs[0]), fs[1..], n);
      WholeStep(a.blocks[n], fs, n);
    }
  }

  lemma {:induction false} TakenConcat(a: Acc, x: seq<Frame>, y: seq<Frame>)
    ensures TakenAll(a, x + y) == TakenAll(TakenAll(a, x), y)
    decreases |x|
  {
    hide Taken;
    if x == [] {
      assert x + y == y;
    } else {
      assert (x + y)[1..] == x[1..] + y;
      TakenConcat(Taken(a, x[0]), x[1..], y);
    }
  }

  /** The run up to a frame, that frame, and the rest. */
  lemma TakenAt(fs: seq<Frame>, k: nat)
    requires k < |fs|
    ensures TakenAll(EMPTY, fs) == TakenAll(Taken(TakenAll(EMPTY, fs[..k]), fs[k]), fs[k + 1..])
  {
    hide Taken;
    assert fs == fs[..k] + fs[k..];
    TakenConcat(EMPTY, fs[..k], fs[k..]);
    assert fs[k..][0] == fs[k] && fs[k..][1..] == fs[k + 1..];
  }

  /**
   * However blocks interleave, each ends up as its opening text and its own pieces in order:
   * answers, thoughts with their signatures, summaries and tool arguments alike.
   */
  lemma BlockWhole(es: seq<Json>, fs: seq<Frame>, k: nat)
    requires MeansAll(es, fs) && k < |fs| && fs[k].Open? && fs[k].n < 1024 && NeverOpens(fs[k + 1..], fs[k].n)
    ensures var blocks := HandledAll(EMPTY, es).blocks;
            fs[k].n < |blocks| && blocks[fs[k].n] == Whole(fs[k].block, fs[k + 1..], fs[k].n)
  {
    hide HandledAll, TakenAll, Means, Whole;
    FramesTaken(EMPTY, es, fs);
    TakenAt(fs, k);
    var a := Taken(TakenAll(EMPTY, fs[..k]), fs[k]);
    BlockGrows(a, fs[k + 1..], fs[k].n);
  }

  lemma {:induction false} BlockRoom(a: Acc, fs: seq<Frame>, n: nat)
    requires |a.blocks| <= n && forall k :: 0 <= k < |fs| && fs[k].Open? ==> fs[k].n < n || fs[k].n >= 1024
    ensures |TakenAll(a, fs).blocks| <= n
    decreases |fs|
  {
    hide ErrorText, Reason, Extended, ShownBy;
    if fs != [] {
      BlockRoom(Taken(a, fs[0]), fs[1..], n);
    }
  }

  /** A place that no frame opens is an empty text once a later one is opened, and text pieces go there. */
  lemma GapIsText(es: seq<Json>, fs: seq<Frame>, k: nat, n: nat)
    requires MeansAll(es, fs) && k < |fs| && fs[k].Open? && n < fs[k].n < 1024 && NeverOpens(fs, n)
    requires forall i :: 0 <= i < k && fs[i].Open? ==> fs[i].n < n || fs[i].n >= 1024
    ensures var blocks := HandledAll(EMPTY, es).blocks;
            n < |blocks| && blocks[n] == Text(Pieces(fs[k + 1..], n, TextPiece))
  {
    hide HandledAll, TakenAll, Means, Pieces;
    FramesTaken(EMPTY, es, fs);
    TakenAt(fs, k);
    BlockRoom(EMPTY, fs[..k], n);
    var a := Taken(TakenAll(EMPTY, fs[..k]), fs[k]);
    BlockGrows(a, fs[k + 1..], n);
    assert "" + Pieces(fs[k + 1..], n, TextPiece) == Pieces(fs[k + 1..], n, TextPiece);
  }

  /** There are as many blocks as the highest opened index asks for; indices past the bound ask for none. */
  lemma BlockCount(es: seq<Json>, fs: seq<Frame>, n: nat)
    requires MeansAll(es, fs) && n < 1024
    ensures n < |HandledAll(EMPTY, es).blocks| <==> exists k :: 0 <= k < |fs| && fs[k].Open? && n <= fs[k].n < 1024
  {
    hide HandledAll, TakenAll, Means;
    FramesTaken(EMPTY, es, fs);
    if k :| 0 <= k < |fs| && fs[k].Open? && n <= fs[k].n < 1024 {
      TakenAt(fs, k);
      BlocksStay(Taken(TakenAll(EMPTY, fs[..k]), fs[k]), fs[k + 1..]);
    } else {
      BlockRoom(EMPTY, fs, n);
    }
  }

  lemma {:induction false} BlocksStay(a: Acc, fs: seq<Frame>)
    ensures |TakenAll(a, fs).blocks| >= |a.blocks|
    decreases |fs|
  {
    hide ErrorText, Reason, Extended, ShownBy;
    if fs != [] {
      BlocksStay(Taken(a, fs[0]), fs[1..]);
    }
  }

  // ----- numbers, reason, error -----

  predicate NoBegin(fs: seq<Frame>) {
    forall k :: 0 <= k < |fs| ==> !fs[k].Begin?
  }

  predicate NoOutput(fs: seq<Frame>) {
    forall k :: 0 <= k < |fs| && fs[k].Status? ==> fs[k].output.None?
  }

  predicate NoReason(fs: seq<Frame>) {
    forall k :: 0 <= k < |fs| && fs[k].Status? ==> fs[k].reason.None?
  }

  predicate NoError(fs: seq<Frame>) {
    forall k :: 0 <= k < |fs| ==> !fs[k].Broken?
  }

  lemma {:induction false} Keeps(a: Acc, fs: seq<Frame>)
    ensures var b := TakenAll(a, fs);
            && (NoBegin(fs) ==> b.usage.input == a.usage.input && b.usage.cacheRead == a.usage.cacheRead)
            && (NoOutput(fs) ==> b.usage.output == a.usage.output)
            && (NoReason(fs) ==> b.stop == a.stop)
            && (NoError(fs) ==> b.error == a.error)
    decreases |fs|
  {
    hide ErrorText, Reason, Extended, ShownBy, Placed;
    if fs != [] {
      Keeps(Taken(a, fs[0]), fs[1..]);
    }
  }

  /** The counts of the prompt are those of the last frame that carries them, or 0. */
  lemma PromptUsage(es: seq<Json>, fs: seq<Frame>, k: nat)
    requires MeansAll(es, fs) && (k < |fs| ==> fs[k].Begin? && NoBegin(fs[k + 1..])) && (k >= |fs| ==> NoBegin(fs))
    ensures var u := HandledAll(EMPTY, es).usage;
            if k < |fs| then u.input == fs[k].input && u.cacheRead == fs[k].cacheRead else u.input == 0 && u.cacheRead == 0
  {
    hide HandledAll, TakenAll, Means;
    FramesTaken(EMPTY, es, fs);
    if k < |fs| {
      TakenAt(fs, k);
      Keeps(Taken(TakenAll(EMPTY, fs[..k]), fs[k]), fs[k + 1..]);
    } else {
      Keeps(EMPTY, fs);
    }
  }

  /** So is the count of the answer. */
  lemma AnswerUsage(es: seq<Json>, fs: seq<Frame>, k: nat)
    requires MeansAll(es, fs)
    requires (k < |fs| ==> fs[k].Status? && fs[k].output.Some? && NoOutput(fs[k + 1..])) && (k >= |fs| ==> NoOutput(fs))
    ensures HandledAll(EMPTY, es).usage.output == if k < |fs| then fs[k].output.value else 0
  {
    hide HandledAll, TakenAll, Means;
    FramesTaken(EMPTY, es, fs);
    if k < |fs| {
      TakenAt(fs, k);
      Keeps(Taken(TakenAll(EMPTY, fs[..k]), fs[k]), fs[k + 1..]);
    } else {
      Keeps(EMPTY, fs);
    }
  }

  /** And the reason to stop. */
  lemma StopFromLast(es: seq<Json>, fs: seq<Frame>, k: nat)
    requires MeansAll(es, fs)
    requires (k < |fs| ==> fs[k].Status? && fs[k].reason.Some? && NoReason(fs[k + 1..])) && (k >= |fs| ==> NoReason(fs))
    ensures HandledAll(EMPTY, es).stop == if k < |fs| then Some(Reason(fs[k].reason.value)) else None
  {
    hide HandledAll, TakenAll, Means, Reason;
    FramesTaken(EMPTY, es, fs);
    if k < |fs| {
      TakenAt(fs, k);
      Keeps(Taken(TakenAll(EMPTY, fs[..k]), fs[k]), fs[k + 1..]);
    } else {
      Keeps(EMPTY, fs);
    }
  }

  /** The size of a text in UTF-8. */
  function Utf8Size(s: string): nat {
    if s == "" then 0
    else
      var n := s[0] as int;
      (if n < 128 then 1 else if n < 2048 then 2 else if n < 65536 then 3 else 4) + Utf8Size(s[1..])
  }

  lemma {:induction false} SizeIs(s: string)
    ensures ByteLen(s) == Utf8Size(s)
  {
    if s != "" {
      SizeIs(s[1..]);
    }
  }

  lemma {:induction false} SizeOfMore(s: string, n: nat)
    requires n < |s|
    ensures Utf8Size(s[..n + 1]) == Utf8Size(s[..n]) + CharBytes(s[n])
    decreases n
  {
    hide CharBytes;
    var t := s[..n + 1];
    if n == 0 {
      assert t[1..] == "" && s[..0] == "";
      SizeOfOne(t);
    } else {
      SizeOfMore(s[1..], n - 1);
      assert t[1..] == s[1..][..n] && s[..n][1..] == s[1..][..n - 1];
      SizeOfOne(t);
      SizeOfOne(s[..n]);
    }
  }

  lemma SizeOfOne(s: string)
    requires s != ""
    ensures Utf8Size(s) == CharBytes(s[0]) + Utf8Size(s[1..])
  {
  }

  /** What an error frame leaves: its kind and its message, cut at the last character that fits 400 bytes. */
  ghost predicate Reports(text: string, fault: string, message: string) {
    if Utf8Size(message) <= 400 then text == fault + ": " + message
    else exists n :: 0 <= n < |message| && Utf8Size(message[..n]) <= 400 < Utf8Size(message[..n + 1]) && text == fault + ": " + (message[..n] + [0x2026 as char])
  }

  lemma ErrorReports(fault: string, message: string)
    ensures Reports(ErrorText(fault, message), fault, message)
  {
    hide ByteLen, Fitting, CharBytes;
    SizeIs(message);
    if Utf8Size(message) > 400 {
      var n := |Fitting(message, 400)|;
      FittingIsLongest(message, 400);
      SizeIs(message[..n]);
      assert message[..|message|] == message;
      SizeOfMore(message, n);
    }
  }

  lemma ErrorFromLast(es: seq<Json>, fs: seq<Frame>, k: nat)
    requires MeansAll(es, fs) && (k < |fs| ==> fs[k].Broken? && NoError(fs[k + 1..])) && (k >= |fs| ==> NoError(fs))
    ensures var error := HandledAll(EMPTY, es).error;
            if k < |fs| then error.Some? && Reports(error.value, fs[k].fault, fs[k].message) else error.None?
  {
    hide HandledAll, TakenAll, Means, ErrorText, Reports;
    FramesTaken(EMPTY, es, fs);
    if k < |fs| {
      TakenAt(fs, k);
      Keeps(Taken(TakenAll(EMPTY, fs[..k]), fs[k]), fs[k + 1..]);
      ErrorReports(fs[k].fault, fs[k].message);
    } else {
      Keeps(EMPTY, fs);
    }
  }

  // ----- the message -----

  /** A block and what the message holds for it. */
  predicate Stands(p: Parser, c: Content, b: Block) {
    match b
    case Text(t) => t != "" && c == TextContent(t)
    case Thinking(t, sig) => c == ThinkingContent(t, sig)
    case Redacted(data) => c == RedactedContent(data)
    case Compaction(content) => c == CompactionContent(content)
    case ToolUse(id, name, json) =>
      && c.ToolContent? && c.id == id && c.name == name
      && (p.parse(json) == Some(c.input) || (p.parse(json).None? && c.input == JObj([])))
  }

  /** `at` lists, in order, the blocks that are no empty texts, and `cs` holds one content for each. */
  ghost predicate Selects(p: Parser, cs: seq<Content>, blocks: seq<Block>, at: seq<nat>) {
    && |at| == |cs|
    && (forall i :: 0 <= i < |at| ==> at[i] < |blocks| && Stands(p, cs[i], blocks[at[i]]))
    && (forall i, j :: 0 <= i < j < |at| ==> at[i] < at[j])
    && (forall k :: 0 <= k < |blocks| && k !in at ==> blocks[k] == Text(""))
  }

  lemma {:induction false} ContentsSelect(p: Parser, blocks: seq<Block>)
    ensures exists at :: Selects(p, ContentsOf(p, blocks), blocks, at)
    decreases |blocks|
  {
    hide Stands, ContentOf, ContentsOf, Selects;
    ContentsStep(p, blocks);
    if blocks == [] {
      NothingSelected(p);
    } else {
      var n := |blocks| - 1;
      ContentsSelect(p, blocks[..n]);
      var at :| Selects(p, ContentsOf(p, blocks[..n]), blocks[..n], at);
      SelectsMore(p, ContentsOf(p, blocks[..n]), blocks, at);
    }
  }

  lemma ContentsStep(p: Parser, blocks: seq<Block>)
    ensures blocks == [] ==> ContentsOf(p, blocks) == []
    ensures blocks != [] ==> ContentsOf(p, blocks) == ContentsOf(p, blocks[..|blocks| - 1]) + ContentOf(p, blocks[|blocks| - 1])
  {
    hide ContentOf;
  }

  lemma NothingSelected(p: Parser)
    ensures Selects(p, [], [], [])
  {
  }

  lemma OneContent(p: Parser, b: Block)
    ensures if b == Text("") then ContentOf(p, b) == [] else |ContentOf(p, b)| == 1 && Stands(p, ContentOf(p, b)[0], b)
  {
  }

  lemma SelectsMore(p: Parser, cs: seq<Content>, blocks: seq<Block>, at: seq<nat>)
    requires blocks != [] && Selects(p, cs, blocks[..|blocks| - 1], at)
    ensures var b := blocks[|blocks| - 1];
            Selects(p, cs + ContentOf(p, b), blocks, if b == Text("") then at else at + [|blocks| - 1])
  {
    hide Stands, ContentOf;
    var n := |blocks| - 1;
    OneContent(p, blocks[n]);
    if blocks[n] == Text("") {
      assert cs + ContentOf(p, blocks[n]) == cs;
      forall k | 0 <= k < |blocks| && k !in at ensures blocks[k] == Text("") {
        assert k < n ==> blocks[..n][k] == blocks[k];
      }
    } else {
      var at' := at + [n];
      assert n in at';
      forall k | 0 <= k < |blocks| && k !in at' ensures blocks[k] == Text("") {
        assert k < n && blocks[..n][k] == blocks[k];
        assert k in at ==> k in at';
      }
    }
  }

  /**
   * The message of a finished turn: one content for each block but the empty texts, in index
   * order, with the last stop reason and the counts.
   */
  lemma MessageExactly(p: Parser, es: seq<Json>, outcome: Outcome)
    requires Finished(p, HandledAll(EMPTY, es)) == Success(outcome)
    ensures exists at :: Selects(p, outcome.content, HandledAll(EMPTY, es).blocks, at)
    ensures outcome.usage == HandledAll(EMPTY, es).usage
    ensures var stop := HandledAll(EMPTY, es).stop; outcome.stop == if stop.Some? then stop.value else EndTurn
  {
    hide HandledAll, ContentsOf, Selects, BadTool;
    ContentsSelect(p, HandledAll(EMPTY, es).blocks);
  }

  // ----- what was shown -----

  function TextShown(sent: seq<Delta>): string {
    if sent == [] then "" else TextShown(sent[..|sent| - 1]) + match sent[|sent| - 1] case TextDelta(t) => t case _ => ""
  }

  function ThoughtShown(sent: seq<Delta>): string {
    if sent == [] then "" else ThoughtShown(sent[..|sent| - 1]) + match sent[|sent| - 1] case ThinkingDelta(t) => t case _ => ""
  }

  function TextStored(blocks: seq<Block>): string {
    if blocks == [] then "" else TextStored(blocks[..|blocks| - 1]) + match blocks[|blocks| - 1] case Text(t) => t case _ => ""
  }

  function ThoughtStored(blocks: seq<Block>): string {
    if blocks == [] then "" else ThoughtStored(blocks[..|blocks| - 1]) + match blocks[|blocks| - 1] case Thinking(t, _) => t case _ => ""
  }

  /** Blocks one after the other: each opens at the next index, and pieces go to the newest. */
  predicate Orderly(fs: seq<Frame>, size: nat) {
    fs == [] ||
    match fs[0]
    case Open(n, block) => n == size < 1024 && Announced(block) && Orderly(fs[1..], size + 1)
    case Piece(n, _, _) => n + 1 == size && Orderly(fs[1..], size)
    case _ => Orderly(fs[1..], size)
  }

  /** Texts and thoughts open empty. */
  predicate Announced(block: Block) {
    match block case Text(t) => t == "" case Thinking(t, _) => t == "" case _ => true
  }

  ghost predicate Agrees(a: Acc) {
    TextShown(a.sent) == TextStored(a.blocks) && ThoughtShown(a.sent) == ThoughtStored(a.blocks)
  }

  lemma ShownMore(sent: seq<Delta>, d: Delta)
    ensures TextShown(sent + [d]) == TextShown(sent) + match d case TextDelta(t) => t case _ => ""
    ensures ThoughtShown(sent + [d]) == ThoughtShown(sent) + match d case ThinkingDelta(t) => t case _ => ""
  {
    assert (sent + [d])[..|sent|] == sent;
  }

  lemma StoredMore(blocks: seq<Block>, b: Block)
    ensures TextStored(blocks + [b]) == TextStored(blocks) + match b case Text(t) => t case _ => ""
    ensures ThoughtStored(blocks + [b]) == ThoughtStored(blocks) + match b case Thinking(t, _) => t case _ => ""
  {
    assert (blocks + [b])[..|blocks|] == blocks;
  }

  lemma OpenAgrees(a: Acc, f: Frame)
    requires Agrees(a) && f.Open? && f.n == |a.blocks| < 1024 && Announced(f.block)
    ensures Agrees(Taken(a, f)) && |Taken(a, f).blocks| == |a.blocks| + 1
  {
    hide TextShown, ThoughtShown, TextStored, ThoughtStored;
    assert Placed(a.blocks, f.n, f.block) == a.blocks + [f.block];
    StoredMore(a.blocks, f.block);
    if f.block.ToolUse? {
      ShownMore(a.sent, ToolStarted(f.block.id, f.block.name));
    }
  }

  lemma PieceAgrees(a: Acc, f: Frame)
    requires Agrees(a) && f.Piece? && f.n + 1 == |a.blocks|
    ensures Agrees(Taken(a, f)) && |Taken(a, f).blocks| == |a.blocks|
  {
    hide TextShown, ThoughtShown, TextStored, ThoughtStored;
    var n := f.n;
    var front, b := a.blocks[..n], a.blocks[n];
    assert a.blocks == front + [b] && a.blocks[n := Extended(b, f.kind, f.text)] == front + [Extended(b, f.kind, f.text)];
    StoredMore(front, b);
    StoredMore(front, Extended(b, f.kind, f.text));
    if b.Text? && f.kind.TextPiece? {
      ShownMore(a.sent, TextDelta(f.text));
      Joins(TextStored(front), b.text, f.text);
    } else if b.Thinking? && f.kind.ThinkingPiece? {
      ShownMore(a.sent, ThinkingDelta(f.text));
      Joins(ThoughtStored(front), b.text, f.text);
    } else {
      assert a.sent + [] == a.sent;
    }
  }

  lemma {:induction false} RunAgrees(a: Acc, fs: seq<Frame>)
    requires Agrees(a) && Orderly(fs, |a.blocks|)
    ensures Agrees(TakenAll(a, fs))
    decreases |fs|
  {
    hide TextShown, ThoughtShown, TextStored, ThoughtStored, ErrorText, Reason, Extended, ShownBy, Placed;
    if fs != [] {
      var f := fs[0];
      if f.Open? {
        OpenAgrees(a, f);
      } else if f.Piece? {
        PieceAgrees(a, f);
      }
      RunAgrees(Taken(a, f), fs[1..]);
    }
  }

  /** The user has seen exactly the text that is stored, and exactly the thoughts. */
  lemma ShownIsStored(es: seq<Json>, fs: seq<Frame>)
    requires MeansAll(es, fs) && Orderly(fs, 0)
    ensures var a := HandledAll(EMPTY, es);
            TextShown(a.sent) == TextStored(a.blocks) && ThoughtShown(a.sent) == ThoughtStored(a.blocks)
  {
    hide HandledAll, TakenAll, Means, Orderly;
    FramesTaken(EMPTY, es, fs);
    RunAgrees(EMPTY, fs);
  }

  /** The tools that opening frames announce. */
  function ToolsOpened(fs: seq<Frame>): seq<Delta> {
    if fs == [] then []
    else (if fs[0].Open? && fs[0].block.ToolUse? then [ToolStarted(fs[0].block.id, fs[0].block.name)] else []) + ToolsOpened(fs[1..])
  }

  function ToolsShown(sent: seq<Delta>): seq<Delta> {
    if sent == [] then []
    else ToolsShown(sent[..|sent| - 1]) + (if sent[|sent| - 1].ToolStarted? then [sent[|sent| - 1]] else [])
  }

  lemma ToolsMore(sent: seq<Delta>, d: Delta)
    ensures ToolsShown(sent + [d]) == ToolsShown(sent) + if d.ToolStarted? then [d] else []
  {
    assert (sent + [d])[..|sent|] == sent;
  }

  lemma ToolStep(a: Acc, f: Frame)
    ensures ToolsShown(Taken(a, f).sent) ==
            ToolsShown(a.sent) + if f.Open? && f.block.ToolUse? then [ToolStarted(f.block.id, f.block.name)] else []
  {
    hide ToolsShown, ErrorText, Reason, Extended, Placed;
    match f
    case Open(_, block) => if block.ToolUse? { ToolsMore(a.sent, ToolStarted(block.id, block.name)); }
    case Piece(n, kind, t) =>
      ToolsMore(a.sent, TextDelta(t));
      ToolsMore(a.sent, ThinkingDelta(t));
      assert a.sent + [] == a.sent;
    case _ =>
  }

  lemma {:induction false} ToolsRun(a: Acc, fs: seq<Frame>)
    ensures ToolsShown(TakenAll(a, fs).sent) == ToolsShown(a.sent) + ToolsOpened(fs)
    decreases |fs|
  {
    hide ToolsShown, Taken;
    if fs != [] {
      ToolStep(a, fs[0]);
      ToolsRun(Taken(a, fs[0]), fs[1..]);
    }
  }

  /** Every tool call is announced once, in order, whatever index it asks for. */
  lemma ToolsAnnounced(es: seq<Json>, fs: seq<Frame>)
    requires MeansAll(es, fs)
    ensures ToolsShown(HandledAll(EMPTY, es).sent) == ToolsOpened(fs)
  {
    hide HandledAll, TakenAll, Means, ToolsOpened;
    FramesTaken(EMPTY, es, fs);
    ToolsRun(EMPTY, fs);
    assert ToolsShown([]) == [];
  }
}
