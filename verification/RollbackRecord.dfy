/** The durable rollback record of a deployment: file snapshots and unit states as JSON, contents in base64. */
module RollbackRecord {
  import opened Wrappers

  // ---- base64 (section 4 of RFC 4648) -------------------------------------------------------------------

  type Byte = x: int | 0 <= x < 256
  type Digit = x: int | 0 <= x < 64

  function Symbol(d: Digit): char {
    if d < 26 then ('A' as int + d) as char
    else if d < 52 then ('a' as int + d - 26) as char
    else if d < 62 then ('0' as int + d - 52) as char
    else if d == 62 then '+' else '/'
  }

  function Value(c: char): Option<Digit> {
    if 'A' <= c <= 'Z' then Some(c as int - 'A' as int)
    else if 'a' <= c <= 'z' then Some(c as int - 'a' as int + 26)
    else if '0' <= c <= '9' then Some(c as int - '0' as int + 52)
    else if c == '+' then Some(62) else if c == '/' then Some(63) else None
  }

  lemma SymbolValue(d: Digit)
    ensures Value(Symbol(d)) == Some(d) && Symbol(d) != '='
  {
  }

  /** One, two or three bytes as four symbols. */
  function EncodeGroup(bytes: seq<Byte>): (group: string)
    requires 1 <= |bytes| <= 3
    ensures |group| == 4
  {
    var p := bytes[0];
    if |bytes| == 1 then [Symbol(p / 4), Symbol(p % 4 * 16), '=', '=']
    else
      var q := bytes[1];
      if |bytes| == 2 then [Symbol(p / 4), Symbol(p % 4 * 16 + q / 16), Symbol(q % 16 * 4), '=']
      else
        var r := bytes[2];
        [Symbol(p / 4), Symbol(p % 4 * 16 + q / 16), Symbol(q % 16 * 4 + r / 64), Symbol(r % 64)]
  }

  function Base64Encode(bytes: seq<Byte>): string {
    if bytes == [] then ""
    else
      var n := if |bytes| < 3 then |bytes| else 3;
      EncodeGroup(bytes[..n]) + Base64Encode(bytes[n..])
  }

  /** One group of four symbols; only the last group may be padded. */
  function DecodeGroup(group: string, last: bool): Option<seq<Byte>>
    requires |group| == 4
  {
    var c, d := group[2], group[3];
    if Value(group[0]).None? || Value(group[1]).None? then None
    else
      var x, y := Value(group[0]).value, Value(group[1]).value;
      if c == '=' then (if last && d == '=' then Some([x * 4 + y / 16]) else None)
      else if Value(c).None? then None
      else
        var z := Value(c).value;
        if d == '=' then (if last then Some([x * 4 + y / 16, y % 16 * 16 + z / 4]) else None)
        else if Value(d).None? then None
        else Some([x * 4 + y / 16, y % 16 * 16 + z / 4, z % 4 * 64 + Value(d).value])
  }

  function Base64Decode(text: string): Option<seq<Byte>> {
    if text == "" then Some([])
    else if |text| < 4 then None
    else
      var group, rest := DecodeGroup(text[..4], |text| == 4), Base64Decode(text[4..]);
      if group.Some? && rest.Some? then Some(group.value + rest.value) else None
  }

  lemma FirstByte(p: Byte, q: Byte)
    ensures p / 4 * 4 + (p % 4 * 16 + q / 16) / 16 == p
  {
    assert (p % 4 * 16 + q / 16) / 16 == p % 4;
  }

  lemma SecondByte(p: Byte, q: Byte, r: Byte)
    ensures (p % 4 * 16 + q / 16) % 16 * 16 + (q % 16 * 4 + r / 64) / 4 == q
  {
    assert (p % 4 * 16 + q / 16) % 16 == q / 16;
    assert (q % 16 * 4 + r / 64) / 4 == q % 16;
  }

  lemma ThirdByte(q: Byte, r: Byte)
    ensures (q % 16 * 4 + r / 64) % 4 * 64 + r % 64 == r
  {
    assert (q % 16 * 4 + r / 64) % 4 == r / 64;
  }

  lemma FullGroup(bytes: seq<Byte>, last: bool)
    requires |bytes| == 3
    ensures DecodeGroup(EncodeGroup(bytes), last) == Some(bytes)
  {
    var p, q, r := bytes[0], bytes[1], bytes[2];
    SymbolValue(p / 4);
    SymbolValue(p % 4 * 16 + q / 16);
    SymbolValue(q % 16 * 4 + r / 64);
    SymbolValue(r % 64);
    FirstByte(p, q);
    SecondByte(p, q, r);
    ThirdByte(q, r);
    assert bytes == [p, q, r];
  }

  lemma PairGroup(bytes: seq<Byte>)
    requires |bytes| == 2
    ensures DecodeGroup(EncodeGroup(bytes), true) == Some(bytes)
  {
    var p, q := bytes[0], bytes[1];
    SymbolValue(p / 4);
    SymbolValue(p % 4 * 16 + q / 16);
    SymbolValue(q % 16 * 4);
    FirstByte(p, q);
    SecondByte(p, q, 0);
    assert bytes == [p, q];
  }

  lemma SingleGroup(bytes: seq<Byte>)
    requires |bytes| == 1
    ensures DecodeGroup(EncodeGroup(bytes), true) == Some(bytes)
  {
    var p := bytes[0];
    SymbolValue(p / 4);
    SymbolValue(p % 4 * 16);
    FirstByte(p, 0);
    assert bytes == [p];
  }

  lemma GroupRoundTrip(bytes: seq<Byte>, last: bool)
    requires 1 <= |bytes| <= 3 && (last || |bytes| == 3)
    ensures DecodeGroup(EncodeGroup(bytes), last) == Some(bytes)
  {
    if |bytes| == 3 {
      FullGroup(bytes, last);
    } else if |bytes| == 2 {
      PairGroup(bytes);
    } else {
      SingleGroup(bytes);
    }
  }

  lemma DecodeConcat(group: string, rest: string)
    requires |group| == 4 && DecodeGroup(group, rest == "").Some? && Base64Decode(rest).Some?
    ensures Base64Decode(group + rest) == Some(DecodeGroup(group, rest == "").value + Base64Decode(rest).value)
  {
    assert (group + rest)[..4] == group && (group + rest)[4..] == rest;
  }

  lemma {:induction false} Base64RoundTrip(bytes: seq<Byte>)
    ensures Base64Decode(Base64Encode(bytes)) == Some(bytes)
    decreases |bytes|
  {
    if bytes != [] {
      var n := if |bytes| < 3 then |bytes| else 3;
      var first, others := bytes[..n], bytes[n..];
      Base64RoundTrip(others);
      GroupRoundTrip(first, Base64Encode(others) == "");
      DecodeConcat(EncodeGroup(first), Base64Encode(others));
      assert first + others == bytes;
    }
  }

  // ---- snapshots ----------------------------------------------------------------------------------------------

  datatype Payload = NoPayload | Bytes(bytes: seq<Byte>) | Text(text: string)

  datatype Kind = Missing | Regular | Symlink | Directory {
    function Name(): string {
      match this
      case Missing => "missing"
      case Regular => "file"
      case Symlink => "symlink"
      case Directory => "directory"
    }
  }

  function KindNamed(name: string): Option<Kind> {
    if name == "missing" then Some(Missing) else if name == "file" then Some(Regular)
    else if name == "symlink" then Some(Symlink) else None
  }

  datatype FileSnapshot = FileSnapshot(kind: Kind, payload: Payload, mode: Option<int>, uid: Option<int>, gid: Option<int>)

  const MISSING := FileSnapshot(Missing, NoPayload, None, None, None)

  predicate NotNegative(field: Option<int>) {
    field.Some? ==> field.value >= 0
  }

  /** What taking a snapshot yields: nothing, a regular file, or a link. */
  predicate Taken(s: FileSnapshot) {
    && NotNegative(s.mode) && NotNegative(s.uid) && NotNegative(s.gid)
    && (s == MISSING ||
        (s.uid.Some? && s.gid.Some? &&
         ((s.kind.Regular? && s.payload.Bytes? && s.mode.Some?) || (s.kind.Symlink? && s.payload.Text? && s.mode.None?))))
  }

  function OrRoot(owner: Option<int>): Option<int> {
    if owner.Some? then owner else Some(0)
  }

  /** A file without a mode cannot be written back, and nothing but links and files can be created. */
  predicate Restorable(s: FileSnapshot) {
    !s.kind.Directory? && (s.kind.Regular? ==> s.mode.Some?)
  }

  /** A link as it is created, before it gets its owner. */
  function OwnedByRoot(s: FileSnapshot): FileSnapshot {
    s.(mode := None, uid := Some(0), gid := Some(0))
  }

  /**
    What putting a snapshot back leaves on disk. A file gets root for an owner or group that is not known; a
    link is given its owner only if both are known, and belongs to root otherwise.
   */
  function Materialized(s: FileSnapshot): FileSnapshot {
    match s.kind
    case Regular => s.(uid := OrRoot(s.uid), gid := OrRoot(s.gid))
    case Symlink => if s.uid.Some? && s.gid.Some? then s.(mode := None) else OwnedByRoot(s)
    case _ => MISSING
  }

  /** What is on disk when putting a snapshot back fails in its last step: only a link can still lack its owner. */
  function AlmostMaterialized(s: FileSnapshot): FileSnapshot {
    if s.kind.Symlink? then OwnedByRoot(s) else Materialized(s)
  }

  /** A snapshot that was taken is put back exactly. */
  lemma TakenIsExact(s: FileSnapshot)
    requires Taken(s)
    ensures Materialized(s) == s && Restorable(s)
  {
  }

  datatype Json =
    | Null
    | Boolean(truth: bool)
    | Number(number: int)
    | String(text: string)
    | Object(fields: map<string, Json>)

  function Field(fields: map<string, Json>, name: string): Json {
    if name in fields then fields[name] else Null
  }

  /** A truth value passes for a number, as it does in the original's language. */
  function NumberFromJson(value: Json): Option<Option<int>> {
    match value
    case Null => Some(None)
    case Number(number) => if number < 0 then None else Some(Some(number))
    case Boolean(truth) => Some(Some(if truth then 1 else 0))
    case _ => None
  }

  function PayloadFromJson(kind: Kind, value: Json, encoding: Json): Option<Payload> {
    if kind.Regular? then
      if !value.String? || encoding != String("base64") then None
      else
        var bytes := Base64Decode(value.text);
        if bytes.None? then None else Some(Bytes(bytes.value))
    else if kind.Symlink? then
      if !value.String? || encoding != String("text") then None else Some(Text(value.text))
    else Some(NoPayload)
  }

  function SnapshotFromJson(value: Json): Option<FileSnapshot> {
    if !value.Object? then None
    else
      var fields := value.fields;
      var kind := Field(fields, "kind");
      if !kind.String? || KindNamed(kind.text).None? then None
      else
        var named := KindNamed(kind.text).value;
        var payload := PayloadFromJson(named, Field(fields, "payload"), Field(fields, "payload_encoding"));
        var mode, uid, gid := NumberFromJson(Field(fields, "mode")), NumberFromJson(Field(fields, "uid")),
                              NumberFromJson(Field(fields, "gid"));
        if payload.None? || mode.None? || uid.None? || gid.None? then None
        else Some(FileSnapshot(named, payload.value, mode.value, uid.value, gid.value))
  }

  /** Whatever a record decodes to, putting it back leaves something a snapshot can be taken of. */
  lemma DecodedIsTaken(value: Json)
    requires SnapshotFromJson(value).Some? && Restorable(SnapshotFromJson(value).value)
    ensures Taken(Materialized(SnapshotFromJson(value).value))
  {
  }

  function NumberToJson(field: Option<int>): Json {
    if field.Some? then Number(field.value) else Null
  }

  function PayloadToJson(payload: Payload): Json {
    match payload
    case Bytes(bytes) => String(Base64Encode(bytes))
    case Text(text) => String(text)
    case NoPayload => Null
  }

  function EncodingOf(payload: Payload): Json {
    String(if payload.Bytes? then "base64" else "text")
  }

  function SnapshotToJson(s: FileSnapshot): Json {
    Object(map[
      "kind" := String(s.kind.Name()),
      "payload" := PayloadToJson(s.payload), "payload_encoding" := EncodingOf(s.payload),
      "mode" := NumberToJson(s.mode), "uid" := NumberToJson(s.uid), "gid" := NumberToJson(s.gid)])
  }

  lemma KindIsNamed(kind: Kind)
    ensures !kind.Directory? ==> KindNamed(kind.Name()) == Some(kind)
  {
  }

  lemma SnapshotFields(s: FileSnapshot)
    ensures var fields := SnapshotToJson(s).fields;
            && Field(fields, "kind") == String(s.kind.Name()) && Field(fields, "payload") == PayloadToJson(s.payload)
            && Field(fields, "payload_encoding") == EncodingOf(s.payload) && Field(fields, "mode") == NumberToJson(s.mode)
            && Field(fields, "uid") == NumberToJson(s.uid) && Field(fields, "gid") == NumberToJson(s.gid)
  {
  }

  lemma PayloadRoundTrip(s: FileSnapshot)
    requires Taken(s)
    ensures PayloadFromJson(s.kind, PayloadToJson(s.payload), EncodingOf(s.payload)) == Some(s.payload)
  {
    if s.payload.Bytes? {
      Base64RoundTrip(s.payload.bytes);
    }
  }

  /** Every snapshot that can be taken comes back from JSON as it was. */
  lemma SnapshotRoundTrip(s: FileSnapshot)
    requires Taken(s)
    ensures SnapshotFromJson(SnapshotToJson(s)) == Some(s)
  {
    SnapshotFields(s);
    KindIsNamed(s.kind);
    PayloadRoundTrip(s);
  }

  // ---- the record -----------------------------------------------------------------------------------------------

  type Path = string

  datatype UnitState = UnitState(enabled: bool, active: bool)

  datatype Transaction = Transaction(imageId: string, imageReference: string, files: map<Path, FileSnapshot>,
                                     units: map<string, UnitState>)

  const UNITS := {"tiny-vless-abuse-blocks.service", "tiny-vless-rate-limit.service", "tiny-vless-rate-limit.timer"}

  predicate IsHex(c: char) {
    '0' <= c <= '9' || 'a' <= c <= 'f'
  }

  predicate IsImageId(id: string) {
    |id| == 71 && id[..7] == "sha256:" && forall k :: 7 <= k < 71 ==> IsHex(id[k])
  }

  predicate IsImageReference(reference: string) {
    reference != "" && |reference| <= 512 && '\r' !in reference && '\n' !in reference && '\0' !in reference
  }

  /** What the writer accepts: snapshots of exactly the managed files and states of exactly the managed units. */
  predicate Recordable(t: Transaction, managed: set<Path>) {
    && IsImageId(t.imageId) && IsImageReference(t.imageReference)
    && t.files.Keys == managed && t.units.Keys == UNITS
  }

  function UnitToJson(u: UnitState): Json {
    Object(map["enabled" := Boolean(u.enabled), "active" := Boolean(u.active)])
  }

  function UnitFromJson(value: Json): Option<UnitState> {
    if value.Object? && Field(value.fields, "enabled").Boolean? && Field(value.fields, "active").Boolean?
    then Some(UnitState(Field(value.fields, "enabled").truth, Field(value.fields, "active").truth)) else None
  }

  function ToJson(t: Transaction): Json {
    Object(map[
      "version" := Number(1), "previous_image_id" := String(t.imageId),
      "previous_image_reference" := String(t.imageReference),
      "files" := Object(map path | path in t.files :: SnapshotToJson(t.files[path])),
      "units" := Object(map unit | unit in t.units :: UnitToJson(t.units[unit]))])
  }

  function FromJson(value: Json, managed: set<Path>): Option<Transaction> {
    if !value.Object? || Field(value.fields, "version") !in {Number(1), Boolean(true)} then None
    else
      var id, reference := Field(value.fields, "previous_image_id"), Field(value.fields, "previous_image_reference");
      var files, units := Field(value.fields, "files"), Field(value.fields, "units");
      if !id.String? || !IsImageId(id.text) || !reference.String? || reference.text == "" then None
      else if !files.Object? || files.fields.Keys != managed then None
      else if exists path :: path in files.fields && SnapshotFromJson(files.fields[path]).None? then None
      else if !units.Object? || units.fields.Keys != UNITS then None
      else if exists unit :: unit in units.fields && UnitFromJson(units.fields[unit]).None? then None
      else Some(Transaction(id.text, reference.text,
                            map path | path in files.fields :: SnapshotFromJson(files.fields[path]).value,
                            map unit | unit in units.fields :: UnitFromJson(units.fields[unit]).value))
  }

  lemma FilesComeBack(files: map<Path, FileSnapshot>)
    requires forall path :: path in files ==> SnapshotFromJson(SnapshotToJson(files[path])) == Some(files[path])
    ensures var encoded := map path | path in files :: SnapshotToJson(files[path]);
            && encoded.Keys == files.Keys
            && (forall path :: path in encoded ==> SnapshotFromJson(encoded[path]).Some?)
            && (map path | path in encoded :: SnapshotFromJson(encoded[path]).value) == files
  {
  }

  lemma UnitsComeBack(units: map<string, UnitState>)
    ensures var encoded := map unit | unit in units :: UnitToJson(units[unit]);
            && encoded.Keys == units.Keys
            && (forall unit :: unit in encoded ==> UnitFromJson(encoded[unit]).Some?)
            && (map unit | unit in encoded :: UnitFromJson(encoded[unit]).value) == units
  {
  }

  /** A record written is the record read. */
  lemma RecordRoundTrip(t: Transaction, managed: set<Path>)
    requires Recordable(t, managed) && forall path :: path in t.files ==> Taken(t.files[path])
    ensures FromJson(ToJson(t), managed) == Some(t)
  {
    forall path | path in t.files
      ensures SnapshotFromJson(SnapshotToJson(t.files[path])) == Some(t.files[path])
    {
      SnapshotRoundTrip(t.files[path]);
    }
    FilesComeBack(t.files);
    UnitsComeBack(t.units);
  }
}
