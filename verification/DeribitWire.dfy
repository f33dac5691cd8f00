/** Deribit FIX market data as book messages (src/book_adapter/deribit_fix_book_wire.cpp). The conversion of
    decimal text to scaled integers is a parameter: it may refuse a text. */
module DeribitWire {
  import opened BookTypes
  import opened Bytes
  import opened Decimal
  import opened L2Values
  import opened FixFields
  import opened FixMessages
  import FixEnvelope
  import opened FixGroups

  const SYMBOL := 55
  const NO_MD_ENTRIES := 268
  const MD_ENTRY_TYPE := 269
  const MD_ENTRY_PX := 270
  const MD_ENTRY_SIZE := 271
  const MD_ENTRY_DATE := 272
  const MD_UPDATE_ACTION := 279

  /** "W", MarketDataSnapshotFullRefresh. */
  const SNAPSHOT_TYPE: bytes := [87]
  /** "X", MarketDataIncrementalRefresh. */
  const INCREMENTAL_TYPE: bytes := [88]

  const SNAPSHOT_TAGS := [MD_ENTRY_TYPE, MD_ENTRY_PX, MD_ENTRY_SIZE, MD_ENTRY_DATE]
  const INCREMENTAL_TAGS := [MD_UPDATE_ACTION, MD_ENTRY_TYPE, MD_ENTRY_PX, MD_ENTRY_SIZE, MD_ENTRY_DATE]

  /** Text to scaled integer; a text that is no decimal, or a negative size, has none. */
  datatype Scale = Scale(price: bytes -> Option<int>, size: bytes -> Option<int>)

  datatype EntryError = NoEntryType | UnknownEntryType | NoPrice | BadSize | NoSize | NoAction | UnknownAction

  datatype WireError =
    | BadEnvelope(error: FixError) | NoSymbol | BadGroup(group: FixError) | ShortGroup | BadEntry(index: nat, entry: EntryError)

  datatype WireResult =
    | Ignored
    | BookSnapshot(symbol: bytes, levels: seq<L2Update>)
    | BookUpdate(symbol: bytes, updates: seq<L2Update>)
    | WireFailed(error: WireError, about: bytes)

  // ------------------------------------------------------------------------------------------ one entry

  datatype EntryResult = EntryIs(update: L2Update) | EntryFailed(error: EntryError)

  datatype ActionResult = ActionIs(operation: L2Operation) | ActionFailed(error: EntryError)

  function ParseAction(entry: seq<Field>): ActionResult {
    match FirstInt(entry, MD_UPDATE_ACTION)
    case None => ActionFailed(NoAction)
    case Some(n) =>
      if n == 0 then ActionIs(New) else if n == 1 then ActionIs(Change) else if n == 2 then ActionIs(Delete)
      else ActionFailed(UnknownAction)
  }

  function ParseEntry(entry: seq<Field>, operation: L2Operation, scale: Scale): EntryResult {
    match FirstInt(entry, MD_ENTRY_TYPE)
    case None => EntryFailed(NoEntryType)
    case Some(n) =>
      if n != 0 && n != 1 then EntryFailed(UnknownEntryType)
      else
        var side := if n == 0 then Bid else Ask;
        var priceText := FirstValue(entry, MD_ENTRY_PX);
        var price := if priceText.Some? then scale.price(priceText.value) else None;
        if price.None? then EntryFailed(NoPrice)
        else
          match FirstValue(entry, MD_ENTRY_SIZE)
          case Some(text) =>
            var size := scale.size(text);
            if size.None? then EntryFailed(BadSize) else EntryIs(L2Update(side, price.value, size.value, operation))
          case None =>
            if operation != Delete then EntryFailed(NoSize) else EntryIs(L2Update(side, price.value, 0, operation))
  }

  /** An entry of a snapshot is a New; one of an incremental names its action. */
  function EntryUpdate(entry: seq<Field>, snapshot: bool, scale: Scale): EntryResult {
    if snapshot then ParseEntry(entry, New, scale)
    else
      match ParseAction(entry)
      case ActionFailed(error) => EntryFailed(error)
      case ActionIs(operation) => ParseEntry(entry, operation, scale)
  }

  // ----------------------------------------------------------------------------------- the whole message

  function Tags(snapshot: bool): seq<int> {
    if snapshot then SNAPSHOT_TAGS else INCREMENTAL_TAGS
  }

  /** Every entry read, in wire order. */
  ghost predicate AllRead(updates: seq<L2Update>, entries: seq<seq<Field>>, snapshot: bool, scale: Scale) {
    |updates| == |entries|
    && forall i :: 0 <= i < |entries| ==> EntryUpdate(entries[i], snapshot, scale) == EntryIs(updates[i])
  }

  ghost predicate FirstBad(index: nat, error: EntryError, entries: seq<seq<Field>>, snapshot: bool, scale: Scale) {
    && index < |entries| && EntryUpdate(entries[index], snapshot, scale) == EntryFailed(error)
    && forall i :: 0 <= i < index ==> EntryUpdate(entries[i], snapshot, scale).EntryIs?
  }

  /** What a group amounts to: refused, short, spoiled by its first bad entry, or read in full. */
  ghost predicate FromGroup(r: WireResult, group: GroupResult, symbol: bytes, snapshot: bool, scale: Scale) {
    if group.GroupFailed? then r == WireFailed(BadGroup(group.error), symbol)
    else if group.group.Truncated() then r == WireFailed(ShortGroup, symbol)
    else
      match r
      case BookSnapshot(s, levels) => snapshot && s == symbol && AllRead(levels, group.group.entries, snapshot, scale)
      case BookUpdate(s, updates) => !snapshot && s == symbol && AllRead(updates, group.group.entries, snapshot, scale)
      case WireFailed(BadEntry(index, error), s) => s == symbol && FirstBad(index, error, group.group.entries, snapshot, scale)
      case _ => false
  }

  ghost predicate IsAnswer(r: WireResult, payload: bytes, scale: Scale) {
    match Parse(payload)
    case ParseFailed(error) => r == WireFailed(BadEnvelope(error), [])
    case Parsed(message) =>
      if message.msgType != SNAPSHOT_TYPE && message.msgType != INCREMENTAL_TYPE then r == Ignored
      else
        var symbol := FirstValue(message.fields, SYMBOL);
        var snapshot := message.msgType == SNAPSHOT_TYPE;
        if symbol.None? || symbol.value == [] then r == WireFailed(NoSymbol, [])
        else
          exists group: GroupResult ::
            && IsGroup(group, message.BodyFields(), NO_MD_ENTRIES, Tags(snapshot))
            && FromGroup(r, group, symbol.value, snapshot, scale)
  }

  /** A payload means one thing. */
  lemma AnswerUnique(a: WireResult, b: WireResult, payload: bytes, scale: Scale)
    requires IsAnswer(a, payload, scale) && IsAnswer(b, payload, scale)
    ensures a == b
  {
    hide IsGroup, EntryUpdate, Parse;
    var parsed := Parse(payload);
    if parsed.Parsed? && parsed.message.msgType in {SNAPSHOT_TYPE, INCREMENTAL_TYPE} {
      var message := parsed.message;
      var symbol := FirstValue(message.fields, SYMBOL);
      var snapshot := message.msgType == SNAPSHOT_TYPE;
      if symbol.Some? && symbol.value != [] {
        var fields, tags := message.BodyFields(), Tags(snapshot);
        var g :| IsGroup(g, fields, NO_MD_ENTRIES, tags) && FromGroup(a, g, symbol.value, snapshot, scale);
        var h :| IsGroup(h, fields, NO_MD_ENTRIES, tags) && FromGroup(b, h, symbol.value, snapshot, scale);
        GroupUnique(g, h, fields, NO_MD_ENTRIES, tags);
        FromGroupUnique(a, b, g, symbol.value, snapshot, scale);
      }
    }
  }

  lemma FromGroupUnique(a: WireResult, b: WireResult, group: GroupResult, symbol: bytes, snapshot: bool, scale: Scale)
    requires FromGroup(a, group, symbol, snapshot, scale) && FromGroup(b, group, symbol, snapshot, scale)
    ensures a == b
  {
    hide EntryUpdate;
    if group.GroupRead? && !group.group.Truncated() {
      var entries := group.group.entries;
      if a.WireFailed? && b.WireFailed? {
        assert a.error.index >= b.error.index && b.error.index >= a.error.index;
      } else if a.BookSnapshot? && b.BookSnapshot? {
        assert a.levels == b.levels;
      } else if a.BookUpdate? && b.BookUpdate? {
        assert a.updates == b.updates;
      }
    }
  }

  /** What an accepted message holds. */
  function Updates(r: WireResult): seq<L2Update>
    requires r.BookSnapshot? || r.BookUpdate?
  {
    if r.BookSnapshot? then r.levels else r.updates
  }

  /** Never a partial batch: a message that is accepted has as many updates as its NoMDEntries says. */
  lemma NeverPartial(r: WireResult, payload: bytes, scale: Scale)
    requires IsAnswer(r, payload, scale) && (r.BookSnapshot? || r.BookUpdate?)
    ensures Parse(payload).Parsed?
    ensures var fields := Parse(payload).message.BodyFields();
            var at := TagAt(fields, NO_MD_ENTRIES);
            at < |fields| && ToInt(fields[at].value) == Some(|Updates(r)|)
  {
    hide Parse, EntryUpdate, ToInt;
    var message := Parse(payload).message;
    var symbol, snapshot := FirstValue(message.fields, SYMBOL).value, message.msgType == SNAPSHOT_TYPE;
    var fields := message.BodyFields();
    var group: GroupResult :| IsGroup(group, fields, NO_MD_ENTRIES, Tags(snapshot))
                              && FromGroup(r, group, symbol, snapshot, scale);
    var at := TagAt(fields, NO_MD_ENTRIES);
    var rest := if at < |fields| then fields[at + 1..] else [];
    assert group.group.declared <= |group.group.entries|;
    assert |group.group.entries| <= group.group.declared;
  }

  // -------------------------------------------------------------------------------- the source's own form

  method ReadUpdates(entries: seq<seq<Field>>, symbol: bytes, snapshot: bool, scale: Scale) returns (r: WireResult)
    ensures FromGroup(r, GroupRead(Group(entries, |entries|)), symbol, snapshot, scale)
  {
    hide EntryUpdate;
    var updates: seq<L2Update> := [];
    var index := 0;
    while index < |entries|
      invariant 0 <= index <= |entries| && |updates| == index
      invariant forall i :: 0 <= i < index ==> EntryUpdate(entries[i], snapshot, scale) == EntryIs(updates[i])
    {
      var update := EntryUpdate(entries[index], snapshot, scale);
      if update.EntryFailed? {
        return WireFailed(BadEntry(index, update.error), symbol);
      }
      updates := updates + [update.update];
      index := index + 1;
    }
    r := if snapshot then BookSnapshot(symbol, updates) else BookUpdate(symbol, updates);
  }

  method ParseDeribitFixMessage(payload: bytes, scale: Scale) returns (r: WireResult)
    ensures IsAnswer(r, payload, scale)
  {
    hide Parse, IsGroup, AllRead, FirstBad;
    var parsed := FixEnvelope.ParseMessage(payload);
    if parsed.ParseFailed? {
      return WireFailed(BadEnvelope(parsed.error), []);
    }
    var message := parsed.message;
    var snapshot := message.msgType == SNAPSHOT_TYPE;
    if !snapshot && message.msgType != INCREMENTAL_TYPE {
      return Ignored;
    }
    var symbol := FirstValue(message.fields, SYMBOL);
    if symbol.None? || symbol.value == [] {
      return WireFailed(NoSymbol, []);
    }
    var group := ReadGroup(message, NO_MD_ENTRIES, Tags(snapshot));
    if group.GroupFailed? {
      return WireFailed(BadGroup(group.error), symbol.value);
    }
    if group.group.Truncated() {
      return WireFailed(ShortGroup, symbol.value);
    }
    r := ReadUpdates(group.group.entries, symbol.value, snapshot, scale);
    assert FromGroup(r, group, symbol.value, snapshot, scale);
  }

  // ------------------------------------------------------------------------------ what a sender writes

  /** One level as text on the wire. */
  datatype WireLevel = WireLevel(side: Side, operation: L2Operation, price: bytes, size: bytes)

  function SideText(side: Side): bytes {
    Render(if side.Bid? then 0 else 1)
  }

  function ActionText(operation: L2Operation): bytes {
    Render(if operation.New? then 0 else if operation.Change? then 1 else 2)
  }

  function LevelFields(level: WireLevel, snapshot: bool): seq<Field> {
    (if snapshot then [] else [Field(MD_UPDATE_ACTION, ActionText(level.operation))])
    + [Field(MD_ENTRY_TYPE, SideText(level.side)), Field(MD_ENTRY_PX, level.price), Field(MD_ENTRY_SIZE, level.size)]
  }

  function EntriesOf(levels: seq<WireLevel>, snapshot: bool): (entries: seq<seq<Field>>)
    ensures |entries| == |levels|
    ensures forall i :: 0 <= i < |levels| ==> entries[i] == LevelFields(levels[i], snapshot)
  {
    seq(|levels|, i requires 0 <= i < |levels| => LevelFields(levels[i], snapshot))
  }

  /** A market data message: its type, the instrument, and the entries behind their count. */
  function BookBody(symbol: bytes, levels: seq<WireLevel>, snapshot: bool): seq<Field> {
    [Field(MSG_TYPE_TAG, if snapshot then SNAPSHOT_TYPE else INCREMENTAL_TYPE), Field(SYMBOL, symbol)]
    + [Field(NO_MD_ENTRIES, Render(|levels|))] + (Join(EntriesOf(levels, snapshot)) + [])
  }

  ghost predicate Readable(level: WireLevel, snapshot: bool, scale: Scale) {
    && SOH !in level.price && SOH !in level.size
    && scale.price(level.price).Some? && scale.size(level.size).Some? && (snapshot ==> level.operation.New?)
  }

  function LevelUpdate(level: WireLevel, scale: Scale): Option<L2Update> {
    var price, size := scale.price(level.price), scale.size(level.size);
    if price.Some? && size.Some? then Some(L2Update(level.side, price.value, size.value, level.operation)) else None
  }

  lemma LevelReads(level: WireLevel, snapshot: bool, scale: Scale)
    requires Readable(level, snapshot, scale)
    ensures LevelUpdate(level, scale).Some?
    ensures EntryUpdate(LevelFields(level, snapshot), snapshot, scale) == EntryIs(LevelUpdate(level, scale).value)
  {
    hide ToInt, Render, FirstValue, LevelFields;
    LevelValues(level, snapshot);
    ToIntOfRender(0);
    ToIntOfRender(1);
    ToIntOfRender(2);
  }

  lemma LevelValues(level: WireLevel, snapshot: bool)
    ensures var fields := LevelFields(level, snapshot);
            && FirstValue(fields, MD_ENTRY_TYPE) == Some(SideText(level.side))
            && FirstValue(fields, MD_ENTRY_PX) == Some(level.price)
            && FirstValue(fields, MD_ENTRY_SIZE) == Some(level.size)
            && (!snapshot ==> FirstValue(fields, MD_UPDATE_ACTION) == Some(ActionText(level.operation)))
  {
    hide Render, FirstValue;
    var snap := [Field(MD_ENTRY_TYPE, SideText(level.side)), Field(MD_ENTRY_PX, level.price),
                 Field(MD_ENTRY_SIZE, level.size)];
    forall tag | tag in {MD_ENTRY_TYPE, MD_ENTRY_PX, MD_ENTRY_SIZE}
      ensures FirstValue(snap, tag) == Some(if tag == MD_ENTRY_TYPE then SideText(level.side)
                                            else if tag == MD_ENTRY_PX then level.price else level.size)
    {
      FirstValueStep(snap, tag);
      FirstValueStep(snap[1..], tag);
      FirstValueStep(snap[1..][1..], tag);
    }
    var fields := LevelFields(level, snapshot);
    if snapshot {
      assert fields == snap;
    } else {
      assert fields[1..] == snap;
      FirstValueStep(fields, MD_ENTRY_TYPE);
      FirstValueStep(fields, MD_ENTRY_PX);
      FirstValueStep(fields, MD_ENTRY_SIZE);
      FirstValueStep(fields, MD_UPDATE_ACTION);
    }
  }

  lemma LevelIsEntry(level: WireLevel, snapshot: bool)
    ensures IsEntry(LevelFields(level, snapshot), if snapshot then MD_ENTRY_TYPE else MD_UPDATE_ACTION)
    ensures AllMembers(LevelFields(level, snapshot), Tags(snapshot))
  {
  }

  predicate EntryField(field: Field) {
    Plain(field) && field.tag != CHECK_SUM_TAG && field.tag != MSG_TYPE_TAG
  }

  lemma RenderIsText(n: nat)
    ensures SOH !in Render(n)
  {
    assert AllDigits(Render(n));
  }

  lemma LevelIsPlain(level: WireLevel, snapshot: bool, scale: Scale)
    requires Readable(level, snapshot, scale)
    ensures forall i :: 0 <= i < |LevelFields(level, snapshot)| ==> EntryField(LevelFields(level, snapshot)[i])
  {
    hide Render;
    RenderIsText(0);
    RenderIsText(1);
    RenderIsText(2);
  }

  lemma {:induction false} JoinKeeps(entries: seq<seq<Field>>)
    requires forall k, i :: 0 <= k < |entries| && 0 <= i < |entries[k]| ==> EntryField(entries[k][i])
    ensures forall i :: 0 <= i < |Join(entries)| ==> EntryField(Join(entries)[i])
  {
    hide EntryField;
    if entries != [] {
      var front := entries[..|entries| - 1];
      assert forall k :: 0 <= k < |front| ==> front[k] == entries[k];
      JoinKeeps(front);
    }
  }

  lemma {:induction false} OnlyType(fields: seq<Field>)
    requires fields != [] && fields[0].tag == MSG_TYPE_TAG
    requires forall i :: 1 <= i < |fields| ==> fields[i].tag != MSG_TYPE_TAG
    ensures MsgType(fields) == fields[0].value
  {
    if |fields| > 1 {
      OnlyType(fields[..|fields| - 1]);
    }
  }

  lemma BookBodyValid(symbol: bytes, levels: seq<WireLevel>, snapshot: bool, scale: Scale)
    requires symbol != [] && SOH !in symbol
    requires forall i :: 0 <= i < |levels| ==> Readable(levels[i], snapshot, scale)
    requires |BodyBytes(BookBody(symbol, levels, snapshot))| < SIZE_LIMIT
    ensures ValidBody(BookBody(symbol, levels, snapshot))
    ensures MsgType(BookBody(symbol, levels, snapshot)) == if snapshot then SNAPSHOT_TYPE else INCREMENTAL_TYPE
  {
    hide LevelFields, Readable, BodyBytes, Render, MsgType, Join;
    var body, entries := BookBody(symbol, levels, snapshot), EntriesOf(levels, snapshot);
    forall k, i | 0 <= k < |entries| && 0 <= i < |entries[k]| ensures EntryField(entries[k][i]) {
      LevelIsPlain(levels[k], snapshot, scale);
    }
    JoinKeeps(entries);
    RenderIsText(|levels|);
    forall i | 3 <= i < |body| ensures EntryField(body[i]) {
      assert body[i] == Join(entries)[i - 3];
    }
    OnlyType(body);
  }

  lemma BookSymbol(symbol: bytes, levels: seq<WireLevel>, snapshot: bool)
    ensures FirstValue(AsParsed(BookBody(symbol, levels, snapshot)).fields, SYMBOL) == Some(symbol)
  {
    hide FirstValue, Join, Digits, BodyBytes, CheckSum, MsgType, EntriesOf, Render;
    var fields := AsParsed(BookBody(symbol, levels, snapshot)).fields;
    assert fields[0].tag == 8 && fields[1].tag == 9 && fields[2].tag == 35 && fields[3] == Field(SYMBOL, symbol);
    FirstValueAt(fields, SYMBOL, 3);
  }

  lemma BookGroup(symbol: bytes, levels: seq<WireLevel>, snapshot: bool)
    requires |levels| < 0x8000_0000_0000_0000
    ensures var entries := EntriesOf(levels, snapshot);
            IsGroup(GroupRead(Group(entries, |entries|)), BookBody(symbol, levels, snapshot), NO_MD_ENTRIES, Tags(snapshot))
  {
    hide LevelFields, IsGroup, Render, IsEntry, AllMembers, Join;
    var entries := EntriesOf(levels, snapshot);
    var delimiter := if snapshot then MD_ENTRY_TYPE else MD_UPDATE_ACTION;
    forall k | 0 <= k < |entries| ensures IsEntry(entries[k], delimiter) && AllMembers(entries[k], Tags(snapshot)) {
      LevelIsEntry(levels[k], snapshot);
    }
    var before := [Field(MSG_TYPE_TAG, if snapshot then SNAPSHOT_TYPE else INCREMENTAL_TYPE), Field(SYMBOL, symbol)];
    WrittenGroupReads(before, NO_MD_ENTRIES, entries, [], Tags(snapshot), delimiter);
  }

  /** Book messages round-trip: whatever book message is written parses to exactly its levels, in order. */
  lemma BookRoundTrip(symbol: bytes, levels: seq<WireLevel>, snapshot: bool, scale: Scale, r: WireResult)
    requires symbol != [] && SOH !in symbol && |levels| < 0x8000_0000_0000_0000
    requires forall i :: 0 <= i < |levels| ==> Readable(levels[i], snapshot, scale)
    requires |BodyBytes(BookBody(symbol, levels, snapshot))| < SIZE_LIMIT
    requires IsAnswer(r, EncodeMessage(BookBody(symbol, levels, snapshot)), scale)
    ensures if snapshot then r.BookSnapshot? && r.symbol == symbol else r.BookUpdate? && r.symbol == symbol
    ensures |Updates(r)| == |levels|
    ensures forall i :: 0 <= i < |levels| ==> LevelUpdate(levels[i], scale) == Some(Updates(r)[i])
  {
    hide EncodeMessage, Parse, EntryUpdate, IsGroup, LevelFields, Readable, BodyBytes, Render, ValidBody;
    var body := BookBody(symbol, levels, snapshot);
    BookBodyValid(symbol, levels, snapshot, scale);
    RoundTrip(body);
    var message := AsParsed(body);
    BookSymbol(symbol, levels, snapshot);
    BookGroup(symbol, levels, snapshot);
    var entries := EntriesOf(levels, snapshot);
    var group := GroupRead(Group(entries, |entries|));
    var g :| IsGroup(g, body, NO_MD_ENTRIES, Tags(snapshot)) && FromGroup(r, g, symbol, snapshot, scale);
    GroupUnique(g, group, body, NO_MD_ENTRIES, Tags(snapshot));
    forall i | 0 <= i < |levels|
      ensures LevelUpdate(levels[i], scale).Some?
      ensures EntryUpdate(entries[i], snapshot, scale) == EntryIs(LevelUpdate(levels[i], scale).value)
    {
      LevelReads(levels[i], snapshot, scale);
    }
  }
}
