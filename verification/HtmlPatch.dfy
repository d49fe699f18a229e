/**
  The dashboard patcher: one managed block after the head tag of an HTML document, found again by two
  markers. The three regular expressions match text whose only '>' is its last character, so they are
  taken as predicates on the chunks a document falls into at each '>'.
 */
module HtmlPatch {
  import opened TextSearch
  import opened Wrappers

  // ---- the managed block --------------------------------------------------------------------------------

  const COMMENT_TEXT := "<!-- arbuzas-"
  const MOBILE_TEXT := "native-mobile:"
  const START_TEXT := COMMENT_TEXT + MOBILE_TEXT + "start --"
  const END_TEXT := COMMENT_TEXT + MOBILE_TEXT + "end --"
  const META_NAME := "<meta name=\"viewport\" "
  const META_WIDTH := "content=\"width=device-width, "
  const META_SCALE := "initial-scale=1, " + "viewport-fit=cover\""
  const META_TEXT := META_NAME + META_WIDTH + META_SCALE
  const CLOSE_TEXT := "</script"
  const MARKER_START := START_TEXT + ">"
  const MARKER_END := END_TEXT + ">"
  const VIEWPORT_META := META_TEXT + ">"
  const SCRIPT_CLOSE := CLOSE_TEXT + ">"
  const DATA_TEXT := "data-kitty-"
  const NETDATA_TEXT := "netdata-mobile="
  const SHEET_ATTRIBUTE := DATA_TEXT + NETDATA_TEXT + "\"stylesheet\""
  const SCRIPT_ATTRIBUTE := DATA_TEXT + NETDATA_TEXT + "\"script\""
  const ASSET_TEXT := "\"/kitty-gration/" + "native-mobile."

  predicate IsTag(tag: string) {
    |tag| == 8 && forall k :: 0 <= k < 8 ==> 'A' <= tag[k] <= 'Z' || '0' <= tag[k] <= '9'
  }

  /** The hashed parts of the two asset names. */
  datatype Assets = Assets(script: string, stylesheet: string) {
    predicate Valid() {
      IsTag(script) && IsTag(stylesheet)
    }

    function SheetHref(): string {
      "href=" + ASSET_TEXT + stylesheet + ".css\" "
    }

    function ScriptSrc(): string {
      "src=" + ASSET_TEXT + script + ".js\" "
    }

    function SheetLink(): string {
      "<link " + ("rel=\"stylesheet\" " + (SheetHref() + (SHEET_ATTRIBUTE + ">")))
    }

    function ScriptTag(): string {
      "<script " + ("defer " + (ScriptSrc() + (SCRIPT_ATTRIBUTE + ">")))
    }
  }

  function ManagedBlock(assets: Assets, includeViewport: bool): string {
    MARKER_START + ((if includeViewport then VIEWPORT_META else "") +
                    (assets.SheetLink() + (assets.ScriptTag() + (SCRIPT_CLOSE + MARKER_END))))
  }

  // What the literals contain, one at a time.
  lemma CommentText()
    ensures '!' in COMMENT_TEXT && '>' !in COMMENT_TEXT && 'd' !in COMMENT_TEXT && 'k' !in COMMENT_TEXT
  {
    assert COMMENT_TEXT[1] == '!';
  }

  lemma MobileText()
    ensures '>' !in MOBILE_TEXT && 'd' !in MOBILE_TEXT && 'k' !in MOBILE_TEXT
  {
  }

  lemma StartText()
    ensures '!' in START_TEXT && '>' !in START_TEXT && 'd' !in START_TEXT && 'k' !in START_TEXT
  {
    CommentText();
    MobileText();
  }

  lemma EndText()
    ensures '!' in END_TEXT && 'd' in END_TEXT && '>' !in END_TEXT && 'k' !in END_TEXT
  {
    CommentText();
    MobileText();
    assert "end --"[2] == 'd';
  }

  lemma MetaName()
    ensures '!' !in META_NAME && '>' !in META_NAME && 'k' !in META_NAME
  {
  }

  lemma MetaWidth()
    ensures '!' !in META_WIDTH && '>' !in META_WIDTH && 'k' !in META_WIDTH
  {
  }

  lemma MetaScale()
    ensures '!' !in META_SCALE && '>' !in META_SCALE && 'k' !in META_SCALE
  {
    assert '!' !in "initial-scale=1, " && '>' !in "initial-scale=1, " && 'k' !in "initial-scale=1, ";
    assert '!' !in "viewport-fit=cover\"" && '>' !in "viewport-fit=cover\"" && 'k' !in "viewport-fit=cover\"";
  }

  lemma MetaText()
    ensures '!' !in META_TEXT && '>' !in META_TEXT && 'k' !in META_TEXT
  {
    MetaName();
    MetaWidth();
    MetaScale();
  }

  lemma CloseText()
    ensures '!' !in CLOSE_TEXT && '>' !in CLOSE_TEXT && 'k' !in CLOSE_TEXT
  {
  }

  lemma DataText()
    ensures '!' !in DATA_TEXT && '>' !in DATA_TEXT && ' ' !in DATA_TEXT && 'p' !in DATA_TEXT
    ensures 'k' in DATA_TEXT && 'd' in DATA_TEXT
  {
    assert DATA_TEXT[0] == 'd' && DATA_TEXT[5] == 'k';
  }

  lemma NetdataText()
    ensures '!' !in NETDATA_TEXT && '>' !in NETDATA_TEXT && ' ' !in NETDATA_TEXT && 'p' !in NETDATA_TEXT
  {
  }

  lemma SheetAttribute()
    ensures '!' !in SHEET_ATTRIBUTE && '>' !in SHEET_ATTRIBUTE && ' ' !in SHEET_ATTRIBUTE && 'p' !in SHEET_ATTRIBUTE
    ensures 'k' in SHEET_ATTRIBUTE && 'd' in SHEET_ATTRIBUTE
  {
    DataText();
    NetdataText();
  }

  lemma ScriptAttribute()
    ensures '!' !in SCRIPT_ATTRIBUTE && '>' !in SCRIPT_ATTRIBUTE && ' ' !in SCRIPT_ATTRIBUTE
    ensures 'k' in SCRIPT_ATTRIBUTE && 'd' in SCRIPT_ATTRIBUTE && 'p' in SCRIPT_ATTRIBUTE
  {
    DataText();
    NetdataText();
    assert "\"script\""[5] == 'p';
  }

  lemma TagText(tag: string)
    requires IsTag(tag)
    ensures '!' !in tag && '>' !in tag && 'd' !in tag
  {
  }

  lemma AssetText()
    ensures '!' !in ASSET_TEXT && '>' !in ASSET_TEXT && 'd' !in ASSET_TEXT
  {
    assert '!' !in "\"/kitty-gration/" && '>' !in "\"/kitty-gration/" && 'd' !in "\"/kitty-gration/";
    assert '!' !in "native-mobile." && '>' !in "native-mobile." && 'd' !in "native-mobile.";
  }

  lemma SheetHrefText(assets: Assets)
    requires assets.Valid()
    ensures '!' !in assets.SheetHref() && '>' !in assets.SheetHref() && 'd' !in assets.SheetHref()
    ensures assets.SheetHref()[|assets.SheetHref()| - 1] == ' '
  {
    TagText(assets.stylesheet);
    AssetText();
    assert ".css\" "[5] == ' ';
  }

  lemma ScriptSrcText(assets: Assets)
    requires assets.Valid()
    ensures '!' !in assets.ScriptSrc() && '>' !in assets.ScriptSrc() && 'd' !in assets.ScriptSrc()
    ensures assets.ScriptSrc()[|assets.ScriptSrc()| - 1] == ' '
  {
    TagText(assets.script);
    AssetText();
    assert ".js\" "[4] == ' ';
  }

  lemma SheetLinkIsChunk(assets: Assets)
    requires assets.Valid()
    ensures IsChunk(assets.SheetLink()) && '!' !in assets.SheetLink()
  {
    SheetHrefText(assets);
    SheetAttribute();
    var text := "<link " + ("rel=\"stylesheet\" " + (assets.SheetHref() + SHEET_ATTRIBUTE));
    assert assets.SheetLink() == text + ">";
    assert '>' !in "<link " && '>' !in "rel=\"stylesheet\" ";
    ChunkOf(text);
    assert '!' !in "<link " && '!' !in "rel=\"stylesheet\" ";
  }

  lemma ScriptTagIsChunk(assets: Assets)
    requires assets.Valid()
    ensures IsChunk(assets.ScriptTag()) && '!' !in assets.ScriptTag()
  {
    ScriptSrcText(assets);
    ScriptAttribute();
    var text := "<script " + ("defer " + (assets.ScriptSrc() + SCRIPT_ATTRIBUTE));
    assert assets.ScriptTag() == text + ">";
    assert '>' !in "<script " && '>' !in "defer ";
    ChunkOf(text);
    assert '!' !in "<script " && '!' !in "defer ";
  }

  lemma SheetLinkAttributes(assets: Assets, m: string)
    requires assets.Valid() && m in {SHEET_ATTRIBUTE, SCRIPT_ATTRIBUTE}
    ensures Count(assets.SheetLink(), m) == if m == SHEET_ATTRIBUTE then 1 else 0
  {
    SheetHrefText(assets);
    SheetAttribute();
    ScriptAttribute();
    var ending := SHEET_ATTRIBUTE + ">";
    CountPastWord("<link ", "rel=\"stylesheet\" " + (assets.SheetHref() + ending), m);
    CountPastWord("rel=\"stylesheet\" ", assets.SheetHref() + ending, m);
    CountPastWord(assets.SheetHref(), ending, m);
    if m == SHEET_ATTRIBUTE {
      CountItself(m);
    } else {
      CountAbsent(ending, m, 'p', 0);
    }
  }

  lemma ScriptTagAttributes(assets: Assets, m: string)
    requires assets.Valid() && m in {SHEET_ATTRIBUTE, SCRIPT_ATTRIBUTE}
    ensures Count(assets.ScriptTag(), m) == if m == SCRIPT_ATTRIBUTE then 1 else 0
  {
    ScriptSrcText(assets);
    SheetAttribute();
    ScriptAttribute();
    var ending := SCRIPT_ATTRIBUTE + ">";
    CountPastWord("<script ", "defer " + (assets.ScriptSrc() + ending), m);
    CountPastWord("defer ", assets.ScriptSrc() + ending, m);
    CountPastWord(assets.ScriptSrc(), ending, m);
    if m == SCRIPT_ATTRIBUTE {
      CountItself(m);
    } else {
      CountShort(ending, m, 0);
    }
  }

  lemma LiteralChunks()
    ensures IsChunk(MARKER_START) && IsChunk(MARKER_END) && IsChunk(VIEWPORT_META) && IsChunk(SCRIPT_CLOSE)
  {
    StartText();
    EndText();
    MetaText();
    CloseText();
    ChunkOf(START_TEXT);
    ChunkOf(END_TEXT);
    ChunkOf(META_TEXT);
    ChunkOf(CLOSE_TEXT);
  }

  lemma CountBlock(assets: Assets, includeViewport: bool, m: string)
    requires assets.Valid() && WithinChunks(m)
    ensures Count(ManagedBlock(assets, includeViewport), m) ==
            Count(MARKER_START, m) + (if includeViewport then Count(VIEWPORT_META, m) else 0) +
            Count(assets.SheetLink(), m) + Count(assets.ScriptTag(), m) + Count(SCRIPT_CLOSE, m) + Count(MARKER_END, m)
  {
    LiteralChunks();
    SheetLinkIsChunk(assets);
    ScriptTagIsChunk(assets);
    var tail := SCRIPT_CLOSE + MARKER_END;
    CountConcat(SCRIPT_CLOSE, MARKER_END, m);
    CountConcat(assets.ScriptTag(), tail, m);
    CountConcat(assets.SheetLink(), assets.ScriptTag() + tail, m);
    var rest := assets.SheetLink() + (assets.ScriptTag() + tail);
    var viewport := if includeViewport then VIEWPORT_META else "";
    CountConcat(viewport, rest, m);
    CountConcat(MARKER_START, viewport + rest, m);
    CountShort("", m, 0);
  }

  lemma MarkerCounts(assets: Assets, m: string)
    requires assets.Valid() && m in {MARKER_START, MARKER_END}
    ensures Count(MARKER_START, m) + Count(MARKER_END, m) == 1
    ensures Count(VIEWPORT_META, m) == 0 && Count(SCRIPT_CLOSE, m) == 0
    ensures Count(assets.SheetLink(), m) == 0 && Count(assets.ScriptTag(), m) == 0
  {
    StartText();
    EndText();
    MetaText();
    CloseText();
    SheetLinkIsChunk(assets);
    ScriptTagIsChunk(assets);
    CountAbsent(VIEWPORT_META, m, '!', 0);
    CountAbsent(SCRIPT_CLOSE, m, '!', 0);
    CountAbsent(assets.SheetLink(), m, '!', 0);
    CountAbsent(assets.ScriptTag(), m, '!', 0);
    CountWhole(m);
    if m == MARKER_START {
      CountShort(MARKER_END, m, 0);
    } else {
      CountAbsent(MARKER_START, m, 'd', 0);
    }
  }

  lemma AttributeCounts(m: string)
    requires m in {SHEET_ATTRIBUTE, SCRIPT_ATTRIBUTE}
    ensures Count(MARKER_START, m) == 0 && Count(MARKER_END, m) == 0
    ensures Count(VIEWPORT_META, m) == 0 && Count(SCRIPT_CLOSE, m) == 0
  {
    StartText();
    EndText();
    MetaText();
    CloseText();
    SheetAttribute();
    ScriptAttribute();
    CountAbsent(MARKER_START, m, 'k', 0);
    CountAbsent(MARKER_END, m, 'k', 0);
    CountAbsent(VIEWPORT_META, m, 'k', 0);
    CountAbsent(SCRIPT_CLOSE, m, 'k', 0);
  }

  /** The block holds each marker once, at its ends, and each attribute once. */
  lemma BlockCounts(assets: Assets, includeViewport: bool)
    requires assets.Valid()
    ensures var block := ManagedBlock(assets, includeViewport);
            && Count(block, MARKER_START) == 1 && Count(block, MARKER_END) == 1
            && Count(block, SHEET_ATTRIBUTE) == 1 && Count(block, SCRIPT_ATTRIBUTE) == 1
  {
    StartText();
    EndText();
    MetaText();
    CloseText();
    LiteralChunks();
    SheetAttribute();
    ScriptAttribute();
    SheetLinkIsChunk(assets);
    ScriptTagIsChunk(assets);
    forall m | m in {MARKER_START, MARKER_END, SHEET_ATTRIBUTE, SCRIPT_ATTRIBUTE}
      ensures WithinChunks(m) && Count(ManagedBlock(assets, includeViewport), m) == 1
    {
      CountBlock(assets, includeViewport, m);
      if m == MARKER_START || m == MARKER_END {
        MarkerCounts(assets, m);
      } else {
        AttributeCounts(m);
        SheetLinkAttributes(assets, m);
        ScriptTagAttributes(assets, m);
      }
    }
  }

  // ---- the three expressions --------------------------------------------------------------------------------

  /**
    The three expressions: a viewport declaration, one that names the device width, and a head tag. None
    of them matches inside the managed block, except the viewport declaration the block may bring.
   */
  datatype Expressions = Expressions(viewport: string -> bool, deviceWidth: string -> bool, head: string -> bool) {
    ghost predicate Valid() {
      && viewport(VIEWPORT_META)
      && !viewport(MARKER_START) && !viewport(MARKER_END) && !viewport(SCRIPT_CLOSE)
      && forall assets: Assets :: assets.Valid() ==> !viewport(assets.SheetLink()) && !viewport(assets.ScriptTag())
    }
  }

  function Viewports(document: string, rx: Expressions): seq<string> {
    Matches(Chunks(document), rx.viewport)
  }

  lemma ViewportsConcat(a: string, b: string, rx: Expressions)
    requires EndsChunk(a)
    ensures Viewports(a + b, rx) == Viewports(a, rx) + Viewports(b, rx)
  {
    ChunksConcat(a, b);
    MatchesConcat(Chunks(a), Chunks(b), rx.viewport);
  }

  lemma ViewportsOfChunk(chunk: string, rest: string, rx: Expressions)
    requires IsChunk(chunk)
    ensures Viewports(chunk + rest, rx) == (if rx.viewport(chunk) then [chunk] else []) + Viewports(rest, rx)
  {
    ViewportsConcat(chunk, rest, rx);
    OneChunk(chunk);
    MatchesOne(chunk, rx.viewport);
  }

  /** The block without its closing marker. */
  function BlockFront(assets: Assets, includeViewport: bool): string {
    MARKER_START + ((if includeViewport then VIEWPORT_META else "") +
                    (assets.SheetLink() + (assets.ScriptTag() + SCRIPT_CLOSE)))
  }

  lemma BlockSplit(assets: Assets, includeViewport: bool)
    ensures ManagedBlock(assets, includeViewport) == BlockFront(assets, includeViewport) + MARKER_END
  {
    Regroup(MARKER_START, if includeViewport then VIEWPORT_META else "", assets.SheetLink(), assets.ScriptTag(),
            SCRIPT_CLOSE, MARKER_END);
  }

  lemma LastOfBlock(assets: Assets, includeViewport: bool)
    ensures var block := ManagedBlock(assets, includeViewport);
            block != "" && block[|block| - 1] == '>'
  {
    BlockSplit(assets, includeViewport);
    LastOfSum(BlockFront(assets, includeViewport), END_TEXT);
  }

  /** The block declares a viewport exactly when it was asked to. */
  lemma BlockViewports(assets: Assets, includeViewport: bool, rx: Expressions)
    requires assets.Valid() && rx.Valid()
    ensures Viewports(ManagedBlock(assets, includeViewport), rx) == if includeViewport then [VIEWPORT_META] else []
    ensures EndsChunk(ManagedBlock(assets, includeViewport))
  {
    LiteralChunks();
    SheetLinkIsChunk(assets);
    ScriptTagIsChunk(assets);
    var rest := assets.SheetLink() + (assets.ScriptTag() + (SCRIPT_CLOSE + MARKER_END));
    assert MARKER_END + "" == MARKER_END;
    ViewportsOfChunk(MARKER_END, "", rx);
    ViewportsOfChunk(SCRIPT_CLOSE, MARKER_END, rx);
    ViewportsOfChunk(assets.ScriptTag(), SCRIPT_CLOSE + MARKER_END, rx);
    ViewportsOfChunk(assets.SheetLink(), assets.ScriptTag() + (SCRIPT_CLOSE + MARKER_END), rx);
    assert Viewports(rest, rx) == [];
    if includeViewport {
      ViewportsOfChunk(VIEWPORT_META, rest, rx);
      ViewportsOfChunk(MARKER_START, VIEWPORT_META + rest, rx);
    } else {
      assert "" + rest == rest;
      ViewportsOfChunk(MARKER_START, rest, rx);
    }
    LastOfBlock(assets, includeViewport);
  }

  // ---- planning ---------------------------------------------------------------------------------------------

  datatype Problem = Markers(problem: MarkerProblem) | BadViewport | NotOneHead | DuplicateViewport | Stale | NoSheet
    | NoScript | Unmanaged

  datatype State = Missing | Responsive

  function ManagedSpan(document: string): Result<Option<(nat, nat)>, MarkerProblem> {
    MarkedSpan(document, MARKER_START, MARKER_END)
  }

  function ViewportState(document: string, rx: Expressions): Result<State, Problem> {
    var found := Viewports(document, rx);
    if found == [] then Ok(Missing)
    else if |found| == 1 && rx.deviceWidth(found[0]) then Ok(Responsive)
    else Err(BadViewport)
  }

  /** The end positions of the head tags that start at `k` or later. */
  function HeadEnds(document: string, rx: Expressions, k: nat): (ends: seq<nat>)
    requires k <= |document|
    ensures forall i :: 0 <= i < |ends| ==> 0 < ends[i] <= |document| && document[ends[i] - 1] == '>'
    decreases |document| - k
  {
    if '>' !in document[k..] then []
    else
      var end := k + FirstEnd(document[k..]) + 1;
      (if rx.head(document[k..end]) then [end] else []) + HeadEnds(document, rx, end)
  }

  /** A new block between what surrounds the old one. */
  function Refresh(before: string, after: string, assets: Assets, rx: Expressions): Result<string, Problem> {
    match ViewportState(before + after, rx)
    case Err(problem) => Err(problem)
    case Ok(state) =>
      var updated := before + ManagedBlock(assets, state.Missing?) + after;
      if |Viewports(updated, rx)| != 1 then Err(DuplicateViewport) else Ok(updated)
  }

  function PlanApply(document: string, assets: Assets, rx: Expressions): Result<string, Problem> {
    match ManagedSpan(document)
    case Err(problem) => Err(Markers(problem))
    case Ok(Some(span)) =>
      SpanInside(document, MARKER_START, MARKER_END);
      Refresh(document[..span.0], document[span.1..], assets, rx)
    case Ok(None) =>
      match ViewportState(document, rx)
      case Err(problem) => Err(problem)
      case Ok(state) =>
        var heads := HeadEnds(document, rx, 0);
        if |heads| != 1 then Err(NotOneHead)
        else Ok(document[..heads[0]] + ManagedBlock(assets, state.Missing?) + document[heads[0]..])
  }

  function PlanRemove(document: string): Result<string, Problem> {
    match ManagedSpan(document)
    case Err(problem) => Err(Markers(problem))
    case Ok(None) => Ok(document)
    case Ok(Some(span)) =>
      SpanInside(document, MARKER_START, MARKER_END);
      Ok(document[..span.0] + document[span.1..])
  }

  function CheckParts(document: string, outside: string, inside: string, assets: Assets, rx: Expressions): Option<Problem> {
    match ViewportState(outside, rx)
    case Err(problem) => Some(problem)
    case Ok(state) =>
      if inside != ManagedBlock(assets, state.Missing?) then Some(Stale)
      else if |Viewports(document, rx)| != 1 then Some(DuplicateViewport)
      else if Count(document, SHEET_ATTRIBUTE) != 1 then Some(NoSheet)
      else if Count(document, SCRIPT_ATTRIBUTE) != 1 then Some(NoScript)
      else None
  }

  /** Nothing when the document is fully managed, else what is wrong. */
  function PlanCheck(document: string, assets: Assets, rx: Expressions): Option<Problem> {
    match ManagedSpan(document)
    case Err(problem) => Some(Markers(problem))
    case Ok(None) => Some(Unmanaged)
    case Ok(Some(span)) =>
      SpanInside(document, MARKER_START, MARKER_END);
      CheckParts(document, document[..span.0] + document[span.1..], document[span.0..span.1], assets, rx)
  }

  // ---- apply, remove and check together -----------------------------------------------------------------------

  lemma FrontEnds(s: string, v: string, w: string, x: string, text: string)
    ensures var front := s + (v + (w + (x + (text + ">"))));
            front != "" && front[|front| - 1] == '>'
  {
    LastOfSum(s + (v + (w + x)), text);
    assert s + (v + (w + (x + (text + ">")))) == (s + (v + (w + x))) + (text + ">");
  }

  lemma BlockIsDelimited(assets: Assets, includeViewport: bool)
    requires assets.Valid()
    ensures Delimited(ManagedBlock(assets, includeViewport), BlockFront(assets, includeViewport), MARKER_START, MARKER_END)
  {
    var front := BlockFront(assets, includeViewport);
    BlockSplit(assets, includeViewport);
    LiteralChunks();
    FrontEnds(MARKER_START, if includeViewport then VIEWPORT_META else "", assets.SheetLink(), assets.ScriptTag(),
              CLOSE_TEXT);
    BlockCounts(assets, includeViewport);
    CountConcat(front, MARKER_END, MARKER_END);
    CountWhole(MARKER_END);
  }

  /** In a marker-free document, a block set after a '>' is found exactly where it was set. */
  lemma BlockIsFound(a: string, assets: Assets, includeViewport: bool, b: string)
    requires assets.Valid() && EndsChunk(a) && ManagedSpan(a + b) == Ok(None)
    ensures var block := ManagedBlock(assets, includeViewport);
            ManagedSpan(a + block + b) == Ok(Some((|a|, |a| + |block|)))
  {
    hide ManagedBlock, BlockFront;
    BlockIsDelimited(assets, includeViewport);
    var block, front := ManagedBlock(assets, includeViewport), BlockFront(assets, includeViewport);
    MarkedBlockIsFound(a, block, front, b, MARKER_START, MARKER_END);
  }

  lemma UnmanagedApply(document: string, assets: Assets, rx: Expressions)
    requires ManagedSpan(document) == Ok(None) && PlanApply(document, assets, rx).Ok?
    ensures ViewportState(document, rx).Ok? && |HeadEnds(document, rx, 0)| == 1
    ensures var end := HeadEnds(document, rx, 0)[0];
            PlanApply(document, assets, rx).value ==
            document[..end] + ManagedBlock(assets, ViewportState(document, rx).value.Missing?) + document[end..]
  {
  }

  /** How a marker-free document is patched. */
  lemma AppliedShape(document: string, assets: Assets, rx: Expressions)
    returns (a: string, b: string, includeViewport: bool)
    requires assets.Valid() && rx.Valid() && ManagedSpan(document) == Ok(None) && PlanApply(document, assets, rx).Ok?
    ensures document == a + b && EndsChunk(a) && a != ""
    ensures PlanApply(document, assets, rx).value == a + ManagedBlock(assets, includeViewport) + b
    ensures ViewportState(document, rx) == Ok(if includeViewport then Missing else Responsive)
    ensures HeadEnds(document, rx, 0) == [|a|]
  {
    UnmanagedApply(document, assets, rx);
    var end := HeadEnds(document, rx, 0)[0];
    a, b := document[..end], document[end..];
    includeViewport := ViewportState(document, rx).value.Missing?;
  }

  // ---- when applying succeeds ---------------------------------------------------------------------------------

  /** The piece between two positions: it ends with the first '>' after one, or after the start of the text. */
  predicate Piece(document: string, start: nat, end: nat) {
    && start < end <= |document| && document[end - 1] == '>'
    && (forall i :: start <= i < end - 1 ==> document[i] != '>')
    && (start == 0 || document[start - 1] == '>')
  }

  /** A head tag ends there. */
  ghost predicate HeadEndsAt(document: string, rx: Expressions, end: nat) {
    exists start: nat :: Piece(document, start, end) && rx.head(document[start..end])
  }

  /** The next piece after `k`. */
  lemma NextPiece(document: string, k: nat)
    requires k <= |document| && (k == 0 || document[k - 1] == '>') && '>' in document[k..]
    ensures Piece(document, k, k + FirstEnd(document[k..]) + 1)
  {
    var rest := document[k..];
    forall i | k <= i < k + FirstEnd(rest)
      ensures document[i] != '>'
    {
      assert rest[..FirstEnd(rest)][i - k] == document[i];
    }
  }

  /** Any piece that ends after `k` is this one or starts after it. */
  lemma OtherPiece(document: string, k: nat, end: nat, start: nat, other: nat)
    requires Piece(document, k, end) && Piece(document, start, other) && k < other
    ensures (start == k && other == end) || start >= end
  {
  }

  lemma NoPiece(document: string, k: nat, end: nat)
    requires k < end && k <= |document| && '>' !in document[k..]
    ensures forall start: nat :: !Piece(document, start, end)
  {
    assert end <= |document| ==> document[k..][end - 1 - k] == document[end - 1];
  }

  lemma PieceIsAhead(document: string, start: nat, end: nat)
    requires Piece(document, start, end)
    ensures start < end <= |document|
  {
  }

  lemma HeadAfter(document: string, rx: Expressions, k: nat, next: nat, end: nat)
    requires Piece(document, k, next) && k < end
    ensures HeadEndsAt(document, rx, end) <==>
            (end == next && rx.head(document[k..next])) || (next < end && HeadEndsAt(document, rx, end))
  {
    hide Piece;
    PieceIsAhead(document, k, next);
    forall start: nat | Piece(document, start, end)
      ensures (start == k && end == next) || (start >= next && end > next)
    {
      OtherPiece(document, k, next, start, end);
      PieceIsAhead(document, start, end);
    }
  }

  lemma NoHead(document: string, rx: Expressions, k: nat, end: nat)
    requires k < end && k <= |document| && '>' !in document[k..]
    ensures !HeadEndsAt(document, rx, end)
  {
    NoPiece(document, k, end);
  }

  lemma HeadStep(document: string, rx: Expressions, k: nat) returns (next: nat)
    requires k <= |document| && '>' in document[k..]
    ensures next == k + FirstEnd(document[k..]) + 1 && k < next <= |document| && document[next - 1] == '>'
    ensures HeadEnds(document, rx, k) ==
            (if rx.head(document[k..next]) then [next] else []) + HeadEnds(document, rx, next)
  {
    next := k + FirstEnd(document[k..]) + 1;
  }

  lemma HeadsOver(document: string, rx: Expressions, k: nat)
    requires k <= |document| && '>' !in document[k..]
    ensures HeadEnds(document, rx, k) == []
  {
  }

  /** The head tags found from a piece's start on are all that end after it. */
  lemma {:induction false} HeadsFrom(document: string, rx: Expressions, k: nat, end: nat)
    requires k <= |document| && (k == 0 || document[k - 1] == '>')
    ensures end in HeadEnds(document, rx, k) <==> k < end && HeadEndsAt(document, rx, end)
    decreases |document| - k
  {
    hide HeadEndsAt, Piece, HeadEnds;
    if '>' in document[k..] {
      var next := HeadStep(document, rx, k);
      NextPiece(document, k);
      HeadsFrom(document, rx, next, end);
      if k < end {
        HeadAfter(document, rx, k, next, end);
      }
    } else {
      HeadsOver(document, rx, k);
      if k < end {
        NoHead(document, rx, k, end);
      }
    }
  }

  /** They are found in order. */
  lemma {:induction false} HeadsRise(document: string, rx: Expressions, k: nat, i: nat)
    requires k <= |document| && i < |HeadEnds(document, rx, k)|
    ensures var ends := HeadEnds(document, rx, k); k < ends[i] && (i > 0 ==> ends[0] < ends[i])
    decreases |document| - k
  {
    hide HeadEnds;
    if '>' !in document[k..] {
      HeadsOver(document, rx, k);
    } else {
      var next := HeadStep(document, rx, k);
      if rx.head(document[k..next]) && i > 0 {
        HeadsRise(document, rx, next, i - 1);
      }
      if !rx.head(document[k..next]) {
        HeadsRise(document, rx, next, i);
      }
    }
  }

  lemma HeadIsAhead(document: string, rx: Expressions, end: nat)
    requires HeadEndsAt(document, rx, end)
    ensures end > 0
  {
  }

  /** There is exactly one head tag, and it ends at `end`. */
  ghost predicate OnlyHead(document: string, rx: Expressions, end: nat) {
    HeadEndsAt(document, rx, end) && forall other: nat :: HeadEndsAt(document, rx, other) ==> other == end
  }

  lemma OneHead(document: string, rx: Expressions)
    ensures |HeadEnds(document, rx, 0)| == 1 <==> exists end: nat :: OnlyHead(document, rx, end)
    ensures forall end: nat :: OnlyHead(document, rx, end) ==> HeadEnds(document, rx, 0) == [end]
  {
    hide HeadEndsAt, HeadEnds;
    var ends := HeadEnds(document, rx, 0);
    forall end: nat {
      HeadsFrom(document, rx, 0, end);
    }
    forall end: nat | OnlyHead(document, rx, end)
      ensures ends == [end]
    {
      HeadIsAhead(document, rx, end);
      assert end in ends && forall i :: 0 <= i < |ends| ==> ends[i] in ends;
      if |ends| > 1 {
        HeadsRise(document, rx, 0, 1);
      }
    }
    if |ends| == 1 {
      assert ends[0] in ends;
      forall other: nat | HeadEndsAt(document, rx, other)
        ensures other == ends[0]
      {
        HeadIsAhead(document, rx, other);
      }
      assert OnlyHead(document, rx, ends[0]);
    }
  }

  /**
    A document without markers is patched if and only if it declares no viewport or one that names the device
    width, and has exactly one head tag; the block goes right behind that tag, with a viewport of its own if there
    is none.
   */
  lemma ApplySucceedsExactly(document: string, assets: Assets, rx: Expressions)
    requires Count(document, MARKER_START) == 0 && Count(document, MARKER_END) == 0
    ensures ManagedSpan(document) == Ok(None) && PlanRemove(document) == Ok(document)
    ensures var found := Viewports(document, rx);
            PlanApply(document, assets, rx).Ok? <==>
            && (found == [] || (|found| == 1 && rx.deviceWidth(found[0])))
            && exists end: nat :: OnlyHead(document, rx, end)
    ensures forall end: nat :: PlanApply(document, assets, rx).Ok? && OnlyHead(document, rx, end) ==>
              end <= |document| &&
              PlanApply(document, assets, rx).value ==
              document[..end] + ManagedBlock(assets, Viewports(document, rx) == []) + document[end..]
  {
    hide HeadEndsAt, OnlyHead, ManagedBlock;
    OneHead(document, rx);
  }

  lemma RemoveWhereFound(a: string, block: string, b: string)
    requires ManagedSpan(a + block + b) == Ok(Some((|a|, |a| + |block|)))
    ensures PlanRemove(a + block + b) == Ok(a + b)
  {
    Cut(a, block, b);
  }

  lemma ApplyWhereFound(a: string, block: string, b: string, assets: Assets, rx: Expressions)
    requires ManagedSpan(a + block + b) == Ok(Some((|a|, |a| + |block|)))
    ensures PlanApply(a + block + b, assets, rx) == Refresh(a, b, assets, rx)
  {
    Cut(a, block, b);
  }

  /** Removing gives the original document back. */
  lemma RemoveUndoesApply(document: string, assets: Assets, rx: Expressions)
    requires assets.Valid() && rx.Valid() && ManagedSpan(document) == Ok(None) && PlanApply(document, assets, rx).Ok?
    ensures PlanRemove(PlanApply(document, assets, rx).value) == Ok(document)
  {
    hide *;
    var a, b, includeViewport := AppliedShape(document, assets, rx);
    BlockIsFound(a, assets, includeViewport, b);
    RemoveWhereFound(a, ManagedBlock(assets, includeViewport), b);
  }

  lemma ViewportsAround(a: string, block: string, b: string, rx: Expressions)
    requires EndsChunk(a) && EndsChunk(block)
    ensures Viewports(a + b, rx) == Viewports(a, rx) + Viewports(b, rx)
    ensures |Viewports(a + block + b, rx)| == |Viewports(a, rx)| + |Viewports(block, rx)| + |Viewports(b, rx)|
  {
    assert EndsChunk(a + block);
    ViewportsConcat(a, b, rx);
    ViewportsConcat(a, block, rx);
    ViewportsConcat(a + block, b, rx);
  }

  /** A patched document declares exactly one viewport. */
  lemma PatchedViewports(a: string, b: string, assets: Assets, includeViewport: bool, rx: Expressions)
    requires assets.Valid() && rx.Valid() && EndsChunk(a)
    requires ViewportState(a + b, rx) == Ok(if includeViewport then Missing else Responsive)
    ensures |Viewports(a + ManagedBlock(assets, includeViewport) + b, rx)| == 1
  {
    BlockViewports(assets, includeViewport, rx);
    ViewportsAround(a, ManagedBlock(assets, includeViewport), b, rx);
  }

  lemma RefreshOf(a: string, b: string, assets: Assets, includeViewport: bool, rx: Expressions)
    requires assets.Valid() && rx.Valid() && EndsChunk(a)
    requires ViewportState(a + b, rx) == Ok(if includeViewport then Missing else Responsive)
    ensures Refresh(a, b, assets, rx) == Ok(a + ManagedBlock(assets, includeViewport) + b)
  {
    PatchedViewports(a, b, assets, includeViewport, rx);
  }

  lemma InsertedAfterHead(a: string, b: string, assets: Assets, includeViewport: bool, rx: Expressions)
    requires ManagedSpan(a + b) == Ok(None) && HeadEnds(a + b, rx, 0) == [|a|]
    requires ViewportState(a + b, rx) == Ok(if includeViewport then Missing else Responsive)
    ensures PlanApply(a + b, assets, rx) == Ok(a + ManagedBlock(assets, includeViewport) + b)
  {
    assert (a + b)[..|a|] == a && (a + b)[|a|..] == b;
  }

  /** Applying again with any assets is the same as applying those assets to the original document. */
  lemma ApplyReplaces(document: string, assets: Assets, other: Assets, rx: Expressions)
    requires assets.Valid() && other.Valid() && rx.Valid()
    requires ManagedSpan(document) == Ok(None) && PlanApply(document, assets, rx).Ok?
    ensures PlanApply(document, other, rx).Ok?
    ensures PlanApply(PlanApply(document, assets, rx).value, other, rx) == PlanApply(document, other, rx)
  {
    hide *;
    var a, b, includeViewport := AppliedShape(document, assets, rx);
    BlockIsFound(a, assets, includeViewport, b);
    ApplyWhereFound(a, ManagedBlock(assets, includeViewport), b, other, rx);
    RefreshOf(a, b, other, includeViewport, rx);
    InsertedAfterHead(a, b, other, includeViewport, rx);
  }

  /** Applying twice changes nothing more. */
  lemma ApplyIsIdempotent(document: string, assets: Assets, rx: Expressions)
    requires assets.Valid() && rx.Valid() && ManagedSpan(document) == Ok(None) && PlanApply(document, assets, rx).Ok?
    ensures PlanApply(PlanApply(document, assets, rx).value, assets, rx) == PlanApply(document, assets, rx)
  {
    ApplyReplaces(document, assets, assets, rx);
  }

  /** Refreshing with other assets and then removing still gives the original back. */
  lemma RemoveUndoesRefresh(document: string, assets: Assets, other: Assets, rx: Expressions)
    requires assets.Valid() && other.Valid() && rx.Valid()
    requires ManagedSpan(document) == Ok(None) && PlanApply(document, assets, rx).Ok?
    ensures var refreshed := PlanApply(PlanApply(document, assets, rx).value, other, rx);
            refreshed.Ok? && PlanRemove(refreshed.value) == Ok(document)
  {
    ApplyReplaces(document, assets, other, rx);
    RemoveUndoesApply(document, other, rx);
  }

  lemma PartsOfPatched(document: string, outside: string, assets: Assets, includeViewport: bool, rx: Expressions)
    requires ViewportState(outside, rx) == Ok(if includeViewport then Missing else Responsive)
    requires |Viewports(document, rx)| == 1
    ensures CheckParts(document, outside, ManagedBlock(assets, includeViewport), assets, rx) ==
            if Count(document, SHEET_ATTRIBUTE) != 1 then Some(NoSheet)
            else if Count(document, SCRIPT_ATTRIBUTE) != 1 then Some(NoScript) else None
  {
  }

  lemma CheckOfSpan(document: string, start: nat, end: nat, assets: Assets, rx: Expressions)
    requires ManagedSpan(document) == Ok(Some((start, end))) && start <= end <= |document|
    ensures PlanCheck(document, assets, rx) ==
            CheckParts(document, document[..start] + document[end..], document[start..end], assets, rx)
  {
  }

  lemma CheckWhereFound(a: string, block: string, b: string, assets: Assets, rx: Expressions)
    requires ManagedSpan(a + block + b) == Ok(Some((|a|, |a| + |block|)))
    ensures PlanCheck(a + block + b, assets, rx) == CheckParts(a + block + b, a + b, block, assets, rx)
  {
    Cut(a, block, b);
    CheckOfSpan(a + block + b, |a|, |a| + |block|, assets, rx);
  }

  /** All that can be wrong with a patched document is how often it mentions the attributes. */
  lemma CheckOfPatched(a: string, b: string, assets: Assets, includeViewport: bool, rx: Expressions)
    requires assets.Valid() && rx.Valid() && EndsChunk(a) && ManagedSpan(a + b) == Ok(None)
    requires ViewportState(a + b, rx) == Ok(if includeViewport then Missing else Responsive)
    ensures var patched := a + ManagedBlock(assets, includeViewport) + b;
            PlanCheck(patched, assets, rx) == if Count(patched, SHEET_ATTRIBUTE) != 1 then Some(NoSheet)
                                              else if Count(patched, SCRIPT_ATTRIBUTE) != 1 then Some(NoScript) else None
  {
    hide *;
    BlockIsFound(a, assets, includeViewport, b);
    CheckWhereFound(a, ManagedBlock(assets, includeViewport), b, assets, rx);
    PatchedViewports(a, b, assets, includeViewport, rx);
    PartsOfPatched(a + ManagedBlock(assets, includeViewport) + b, a + b, assets, includeViewport, rx);
  }

  lemma AttributesOfPatched(a: string, b: string, assets: Assets, includeViewport: bool)
    requires assets.Valid() && EndsChunk(a)
    ensures forall m :: m in {SHEET_ATTRIBUTE, SCRIPT_ATTRIBUTE} ==>
      Count(a + ManagedBlock(assets, includeViewport) + b, m) == Count(a + b, m) + 1
  {
    SheetAttribute();
    ScriptAttribute();
    LastOfBlock(assets, includeViewport);
    BlockCounts(assets, includeViewport);
    CountAround(a, ManagedBlock(assets, includeViewport), b, SHEET_ATTRIBUTE);
    CountAround(a, ManagedBlock(assets, includeViewport), b, SCRIPT_ATTRIBUTE);
  }

  /**
    The check accepts a patched document exactly when the original mentions neither of the two attributes;
    a document that already carries one is patched and then rejected.
   */
  lemma CheckAcceptsApplied(document: string, assets: Assets, rx: Expressions)
    requires assets.Valid() && rx.Valid() && ManagedSpan(document) == Ok(None) && PlanApply(document, assets, rx).Ok?
    ensures PlanCheck(PlanApply(document, assets, rx).value, assets, rx) == None <==>
            Count(document, SHEET_ATTRIBUTE) == 0 && Count(document, SCRIPT_ATTRIBUTE) == 0
  {
    var a, b, includeViewport := AppliedShape(document, assets, rx);
    CheckOfPatched(a, b, assets, includeViewport, rx);
    AttributesOfPatched(a, b, assets, includeViewport);
  }

  lemma BlockFits(before: string, inside: string, after: string, block: string)
    ensures before + block + after == before + inside + after <==> block == inside
  {
    if before + block + after == before + inside + after {
      assert |block| == |inside|;
      assert block == (before + block + after)[|before|..|before| + |block|];
      assert inside == (before + inside + after)[|before|..|before| + |inside|];
    }
  }

  lemma PartsExactly(document: string, a: string, inside: string, b: string, assets: Assets, rx: Expressions)
    requires document == a + inside + b
    ensures CheckParts(document, a + b, inside, assets, rx) == None <==>
            && Refresh(a, b, assets, rx) == Ok(document) && |Viewports(document, rx)| == 1
            && Count(document, SHEET_ATTRIBUTE) == 1 && Count(document, SCRIPT_ATTRIBUTE) == 1
  {
    hide ManagedBlock, Viewports, Count;
    if ViewportState(a + b, rx).Ok? {
      BlockFits(a, inside, b, ManagedBlock(assets, ViewportState(a + b, rx).value.Missing?));
    }
  }

  /**
    The check accepts exactly the documents that hold a block, that applying leaves as they are, that declare one
    viewport and that mention each attribute once.
   */
  lemma CheckIsExact(document: string, assets: Assets, rx: Expressions)
    ensures PlanCheck(document, assets, rx) == None <==>
            && (exists span :: ManagedSpan(document) == Ok(Some(span))) && PlanApply(document, assets, rx) == Ok(document)
            && |Viewports(document, rx)| == 1
            && Count(document, SHEET_ATTRIBUTE) == 1 && Count(document, SCRIPT_ATTRIBUTE) == 1
  {
    hide CheckParts, Refresh, Viewports, Count;
    if ManagedSpan(document).Ok? && ManagedSpan(document).value.Some? {
      var span := ManagedSpan(document).value.value;
      SpanInside(document, MARKER_START, MARKER_END);
      var a, inside, b := document[..span.0], document[span.0..span.1], document[span.1..];
      PartsExactly(document, a, inside, b, assets, rx);
    }
  }

  /** Whatever applying makes of a document declares exactly one viewport. */
  lemma AppliedHasOneViewport(document: string, assets: Assets, rx: Expressions)
    requires assets.Valid() && rx.Valid() && PlanApply(document, assets, rx).Ok?
    ensures |Viewports(PlanApply(document, assets, rx).value, rx)| == 1
  {
    hide Viewports, ManagedBlock;
    if ManagedSpan(document) == Ok(None) {
      var a, b, includeViewport := AppliedShape(document, assets, rx);
      PatchedViewports(a, b, assets, includeViewport, rx);
    }
  }

  lemma HeadIsChunk()
    ensures IsChunk("<head>")
  {
    ChunkOf("<head");
    assert "<head" + ">" == "<head>";
  }

  lemma NoViewports(text: string, rx: Expressions)
    requires !rx.viewport("<head>") && '>' !in text
    ensures Viewports("<head>" + text, rx) == []
  {
    HeadIsChunk();
    ViewportsOfChunk("<head>", text, rx);
    assert Chunks(text) == [];
  }

  /** A document with a head tag and then no markup is patched. */
  lemma HeadOnly(text: string, assets: Assets, rx: Expressions)
    requires rx.head("<head>") && !rx.viewport("<head>") && '>' !in text && '!' !in text
    ensures ManagedSpan("<head>" + text) == Ok(None) && PlanApply("<head>" + text, assets, rx).Ok?
  {
    var document := "<head>" + text;
    StartText();
    EndText();
    CountAbsent(document, MARKER_START, '!', 0);
    CountAbsent(document, MARKER_END, '!', 0);
    HeadIsChunk();
    FirstEndUnique(document, 5);
    assert document[..6] == "<head>" && document[6..] == text && document[0..] == document;
    assert HeadEnds(document, rx, 6) == [];
    NoViewports(text, rx);
  }

  /** A concrete document that is patched and then rejected. */
  lemma CheckCanReject(assets: Assets, rx: Expressions)
    requires assets.Valid() && rx.Valid() && rx.head("<head>") && !rx.viewport("<head>")
    ensures var document := "<head>" + SHEET_ATTRIBUTE;
            PlanApply(document, assets, rx).Ok? && PlanCheck(PlanApply(document, assets, rx).value, assets, rx) != None
  {
    SheetAttribute();
    HeadOnly(SHEET_ATTRIBUTE, assets, rx);
    HeadIsChunk();
    CountConcat("<head>", SHEET_ATTRIBUTE, SHEET_ATTRIBUTE);
    CountWhole(SHEET_ATTRIBUTE);
    CheckAcceptsApplied("<head>" + SHEET_ATTRIBUTE, assets, rx);
  }

  // ---- files ------------------------------------------------------------------------------------------------------

  /** What reading a file yields: every carriage return, with the line feed after it if there is one, is a line feed. */
  function Universal(raw: string): (document: string)
    ensures '\r' !in document
  {
    if raw == "" then ""
    else if raw[0] != '\r' then [raw[0]] + Universal(raw[1..])
    else if |raw| > 1 && raw[1] == '\n' then "\n" + Universal(raw[2..])
    else "\n" + Universal(raw[1..])
  }

  /** Reading changes nothing exactly when there is no carriage return. */
  lemma {:induction false} ReadAsIs(raw: string)
    ensures Universal(raw) == raw <==> '\r' !in raw
  {
    if raw != "" && raw[0] != '\r' {
      ReadAsIs(raw[1..]);
      assert raw == [raw[0]] + raw[1..];
    }
  }

  /** A file is rewritten only if what was planned differs from what was read, and then without translation. */
  function Rewritten(raw: string, planned: Result<string, Problem>): string {
    if planned.Ok? && planned.value != Universal(raw) then planned.value else raw
  }

  function AppliedFile(raw: string, assets: Assets, rx: Expressions): string {
    Rewritten(raw, PlanApply(Universal(raw), assets, rx))
  }

  function RemovedFile(raw: string): string {
    Rewritten(raw, PlanRemove(Universal(raw)))
  }

  predicate NoReturn(s: string) {
    '\r' !in s
  }

  lemma LiteralReturns()
    ensures NoReturn(MARKER_START) && NoReturn(MARKER_END) && NoReturn(SCRIPT_CLOSE)
  {
    assert NoReturn(COMMENT_TEXT);
    assert NoReturn(MOBILE_TEXT);
  }

  lemma MetaReturns()
    ensures NoReturn(VIEWPORT_META)
  {
    assert NoReturn(META_NAME);
    assert NoReturn(META_WIDTH);
    assert NoReturn("initial-scale=1, ");
    assert NoReturn("viewport-fit=cover\"");
  }

  lemma AttributeReturns()
    ensures NoReturn(SHEET_ATTRIBUTE) && NoReturn(SCRIPT_ATTRIBUTE)
  {
    assert NoReturn(DATA_TEXT);
    assert NoReturn(NETDATA_TEXT);
  }

  lemma AssetReturns(assets: Assets)
    requires assets.Valid()
    ensures NoReturn(assets.SheetHref()) && NoReturn(assets.ScriptSrc())
  {
    assert NoReturn("\"/kitty-gration/");
    assert NoReturn("native-mobile.");
  }

  lemma SheetLinkReturns(assets: Assets)
    requires assets.Valid()
    ensures NoReturn(assets.SheetLink())
  {
    AssetReturns(assets);
    AttributeReturns();
    assert NoReturn("<link ") && NoReturn("rel=\"stylesheet\" ");
  }

  lemma ScriptTagReturns(assets: Assets)
    requires assets.Valid()
    ensures NoReturn(assets.ScriptTag())
  {
    AssetReturns(assets);
    AttributeReturns();
    assert NoReturn("<script ") && NoReturn("defer ");
  }

  lemma BlockReturns(assets: Assets, includeViewport: bool)
    requires assets.Valid()
    ensures NoReturn(ManagedBlock(assets, includeViewport))
  {
    LiteralReturns();
    MetaReturns();
    SheetLinkReturns(assets);
    ScriptTagReturns(assets);
  }

  lemma LongerThanBefore(a: string, block: string, b: string)
    requires block != ""
    ensures a + block + b != a + b
  {
    assert |a + block + b| > |a + b|;
  }

  lemma JoinedReturns(a: string, block: string, b: string)
    requires NoReturn(a + b) && NoReturn(block)
    ensures NoReturn(a + block + b)
  {
    forall c | c in a + block + b
      ensures c in a + b || c in block
    {
    }
  }

  /** A page that is patched is rewritten, reads back as it was written, and differs from what it was. */
  lemma AppliedReadsBack(raw: string, assets: Assets, rx: Expressions)
    requires assets.Valid() && rx.Valid()
    requires ManagedSpan(Universal(raw)) == Ok(None) && PlanApply(Universal(raw), assets, rx).Ok?
    ensures AppliedFile(raw, assets, rx) == PlanApply(Universal(raw), assets, rx).value != Universal(raw)
    ensures Universal(AppliedFile(raw, assets, rx)) == AppliedFile(raw, assets, rx)
  {
    hide ManagedBlock, PlanApply, ManagedSpan;
    var document := Universal(raw);
    var a, b, includeViewport := AppliedShape(document, assets, rx);
    BlockReturns(assets, includeViewport);
    LastOfBlock(assets, includeViewport);
    LongerThanBefore(a, ManagedBlock(assets, includeViewport), b);
    JoinedReturns(a, ManagedBlock(assets, includeViewport), b);
    ReadAsIs(a + ManagedBlock(assets, includeViewport) + b);
  }

  /**
    Patching a file and then removing the patch leaves what reading the file yielded, which is the file as it
    was if and only if it had no carriage return.
   */
  lemma RemoveRestoresFile(raw: string, assets: Assets, rx: Expressions)
    requires assets.Valid() && rx.Valid()
    requires ManagedSpan(Universal(raw)) == Ok(None) && PlanApply(Universal(raw), assets, rx).Ok?
    ensures RemovedFile(AppliedFile(raw, assets, rx)) == Universal(raw)
    ensures RemovedFile(AppliedFile(raw, assets, rx)) == raw <==> '\r' !in raw
  {
    hide ManagedSpan, PlanApply, PlanRemove;
    AppliedReadsBack(raw, assets, rx);
    RemoveUndoesApply(Universal(raw), assets, rx);
    ReadAsIs(raw);
  }

  /**
    Patching a patched file is patching the original. With the same assets it changes nothing, so a run that
    stopped between two pages can be run again.
   */
  lemma ApplyFileReplaces(raw: string, assets: Assets, other: Assets, rx: Expressions)
    requires assets.Valid() && other.Valid() && rx.Valid()
    requires ManagedSpan(Universal(raw)) == Ok(None) && PlanApply(Universal(raw), assets, rx).Ok?
    ensures AppliedFile(AppliedFile(raw, assets, rx), other, rx) == AppliedFile(raw, other, rx)
  {
    hide ManagedSpan, PlanApply;
    AppliedReadsBack(raw, assets, rx);
    ApplyReplaces(Universal(raw), assets, other, rx);
    AppliedReadsBack(raw, other, rx);
  }

  /** The same after refreshing the patch with other assets. */
  lemma RemoveRestoresRefreshed(raw: string, assets: Assets, other: Assets, rx: Expressions)
    requires assets.Valid() && other.Valid() && rx.Valid()
    requires ManagedSpan(Universal(raw)) == Ok(None) && PlanApply(Universal(raw), assets, rx).Ok?
    ensures RemovedFile(AppliedFile(AppliedFile(raw, assets, rx), other, rx)) == raw <==> '\r' !in raw
  {
    hide ManagedSpan, PlanApply, PlanRemove;
    ApplyFileReplaces(raw, assets, other, rx);
    ApplyReplaces(Universal(raw), assets, other, rx);
    RemoveRestoresFile(raw, other, rx);
  }

  lemma LineEnd()
    ensures Universal("\r\n") == "\n"
  {
    assert Universal("") == "";
    assert "\r\n"[2..] == "";
  }

  lemma {:induction false} UniversalConcat(a: string, b: string)
    requires NoReturn(a)
    ensures Universal(a + b) == a + Universal(b)
  {
    if a == "" {
      assert a + b == b;
    } else {
      assert (a + b)[0] == a[0] && (a + b)[1..] == a[1..] + b;
      UniversalConcat(a[1..], b);
    }
  }

  lemma HeadWithReturn()
    ensures Universal("<head>" + "\r\n") == "<head>" + "\n"
  {
    LineEnd();
    UniversalConcat("<head>", "\r\n");
  }

  /** A concrete file that is patched and unpatched and then differs from what it was. */
  lemma ReturnIsNotRestored(assets: Assets, rx: Expressions)
    requires assets.Valid() && rx.Valid() && rx.head("<head>") && !rx.viewport("<head>")
    ensures RemovedFile(AppliedFile("<head>" + "\r\n", assets, rx)) == "<head>" + "\n" != "<head>" + "\r\n"
  {
    hide *;
    HeadWithReturn();
    HeadOnly("\n", assets, rx);
    RemoveRestoresFile("<head>" + "\r\n", assets, rx);
    assert |"<head>" + "\n"| != |"<head>" + "\r\n"|;
  }

  // ---- the command --------------------------------------------------------------------------------------------

  /** How a run ends: before any write, at a write that failed, or with every page written. */
  datatype Outcome = Refused | StoppedAt(page: nat) | Done

  /** A page that cannot be read or planned. */
  predicate Bad(page: Option<string>, plan: string -> Result<string, Problem>) {
    page.None? || plan(Universal(page.value)).Err?
  }

  /** The page is to be written: what was planned for it differs from what was read. */
  predicate ToWrite(page: Option<string>, plan: string -> Result<string, Problem>, updated: string) {
    page.Some? && plan(Universal(page.value)) == Ok(updated) && updated != Universal(page.value)
  }

  ghost predicate IsWritten(page: Option<string>, after: Option<string>, plan: string -> Result<string, Problem>) {
    if exists updated :: ToWrite(page, plan, updated) then after.Some? && ToWrite(page, plan, after.value)
    else after == page
  }

  ghost predicate Breaks(page: Option<string>, plan: string -> Result<string, Problem>, failing: bool) {
    failing && exists updated :: ToWrite(page, plan, updated)
  }

  class Site {
    /** The entry points as they are stored; a missing or unsafe one is None. */
    var pages: seq<Option<string>>

    constructor (pages: seq<Option<string>>)
      ensures this.pages == pages
    {
      this.pages := pages;
    }

    /**
      Plans every page before it writes any. Without best effort one bad page stops everything; with it, the
      good pages are written and the bad ones left alone. A write that fails ends the run: the pages before
      it are written, the others are as they were.
     */
    method Run(plan: string -> Result<string, Problem>, bestEffort: bool, fails: nat -> bool) returns (outcome: Outcome)
      modifies this
      ensures outcome.Refused? <==> !bestEffort && exists k :: 0 <= k < |old(pages)| && Bad(old(pages)[k], plan)
      ensures outcome.StoppedAt? <==>
        !outcome.Refused? && exists k: nat :: k < |old(pages)| && Breaks(old(pages)[k], plan, fails(k))
      ensures outcome.StoppedAt? ==>
        && outcome.page < |old(pages)| && Breaks(old(pages)[outcome.page], plan, fails(outcome.page))
        && forall k: nat :: k < outcome.page ==> !Breaks(old(pages)[k], plan, fails(k))
      ensures |pages| == |old(pages)|
      ensures forall k: nat :: k < |pages| ==>
        if outcome.Done? || (outcome.StoppedAt? && k < outcome.page) then IsWritten(old(pages)[k], pages[k], plan)
        else pages[k] == old(pages)[k]
    {
      var updates: seq<Option<string>>, failed := [], false;
      for k := 0 to |pages|
        invariant pages == old(pages) && |updates| == k
        invariant failed <==> exists j :: 0 <= j < k && Bad(pages[j], plan)
        invariant forall j :: 0 <= j < k ==> forall updated :: ToWrite(pages[j], plan, updated) <==> updates[j] == Some(updated)
      {
        var update := None;
        if pages[k].None? {
          failed := true;
        } else {
          var document := Universal(pages[k].value);
          match plan(document) {
            case Err(_) => failed := true;
            case Ok(updated) => update := if updated != document then Some(updated) else None;
          }
        }
        updates := updates + [update];
      }
      if failed && !bestEffort {
        return Refused;
      }
      for k := 0 to |pages|
        invariant |pages| == |updates| == |old(pages)|
        invariant forall j: nat :: j < k ==> !Breaks(old(pages)[j], plan, fails(j)) && IsWritten(old(pages)[j], pages[j], plan)
        invariant forall j :: k <= j < |pages| ==> pages[j] == old(pages)[j]
      {
        if updates[k].Some? {
          assert ToWrite(old(pages)[k], plan, updates[k].value);
          if fails(k) {
            return StoppedAt(k);
          }
          pages := pages[k := updates[k]];
        } else {
          assert forall updated :: !ToWrite(old(pages)[k], plan, updated);
        }
      }
      outcome := Done;
    }
  }
}
