/** The journal on paper: how captured files and transaction records become JSON values
    and how recovery reads them back. */
module JournalCodec {
  import opened Basics
  import opened GuardTypes
  import opened RecoverySpec
  import HashRecord
  import Base64
  import W = WriteConfig

  datatype Json =
    | JNull
    | JBool(b: bool)
    | JInt(i: int)
    | JReal(x: real)
    | JNotFinite
    | JString(s: string)
    | JArray(items: seq<Json>)
    | JObject(fields: map<string, Json>)

  /** Two conversions of Python that are not spelt out: the numerals int() takes, and the text
      str() makes of a value that is not a string. */
  datatype Python = Python(numeral: string -> Option<int>, text: Json -> string)

  datatype Identity = Identity(rootUid: nat, rootGid: nat, sandboxUid: nat, sandboxGid: nat)

  /** What a capture keeps of a file, as far as a journal stores it. */
  datatype Snapshot = Snapshot(
    name: string, uid: nat, gid: nat, mode: nat, atimeNs: int, mtimeNs: int, data: Bytes,
    xattrs: seq<(string, Bytes)>, inodeFlags: Option<int>)

  const HASH_NAME := ".config-hash"
  const CONFIG_DIR := "/sandbox/.openclaw"
  const MODE_7777 := 4095

  function Cap(name: string): nat {
    if name == HASH_NAME then MAX_HASH_BYTES else MAX_CONFIG_BYTES
  }

  // ----- one file

  function StoredXattr(x: (string, Bytes)): Json {
    JArray([JString(x.0), JString(Base64.Encode(x.1))])
  }

  function StoredXattrs(xattrs: seq<(string, Bytes)>): (v: Json)
    ensures v.JArray?
  {
    JArray(seq(|xattrs|, i requires 0 <= i < |xattrs| => StoredXattr(xattrs[i])))
  }

  /** _stored_file. */
  function StoredFile(f: Snapshot): (v: Json)
    ensures v.JObject?
  {
    JObject(map[
      "name" := JString(f.name),
      "uid" := JInt(f.uid),
      "gid" := JInt(f.gid),
      "mode" := JInt(f.mode),
      "atimeNs" := JInt(f.atimeNs),
      "mtimeNs" := JInt(f.mtimeNs),
      "data" := JString(Base64.Encode(f.data)),
      "xattrs" := StoredXattrs(f.xattrs),
      "inodeFlags" := if f.inodeFlags.None? then JNull else JInt(f.inodeFlags.value)
    ])
  }

  function Field(fields: map<string, Json>, key: string): Option<Json> {
    if key in fields then Some(fields[key]) else None
  }

  /** int(). */
  function IntOf(py: Python, v: Json): Option<int> {
    match v
    case JInt(i) => Some(i)
    case JBool(b) => Some(if b then 1 else 0)
    case JReal(x) => Some(Truncated(x))
    case JString(s) => py.numeral(s)
    case _ => None
  }

  function IntField(py: Python, fields: map<string, Json>, key: string): Option<int> {
    var v :- Field(fields, key);
    IntOf(py, v)
  }

  function StringOf(v: Json): Option<string> {
    if v.JString? then Some(v.s) else None
  }

  function BytesOf(py: Python, v: Json): Option<Bytes> {
    Base64.Decode(if v.JString? then v.s else py.text(v))
  }

  function XattrOf(py: Python, v: Json): Option<(string, Bytes)> {
    if !v.JArray? || |v.items| != 2 then None
    else
      var name :- StringOf(v.items[0]);
      var value :- BytesOf(py, v.items[1]);
      Some((name, value))
  }

  function XattrsOf(py: Python, items: seq<Json>): Option<seq<(string, Bytes)>> {
    if items == [] then Some([])
    else
      var first :- XattrOf(py, items[0]);
      var rest :- XattrsOf(py, items[1..]);
      Some([first] + rest)
  }

  function FlagsOf(py: Python, fields: map<string, Json>): Option<Option<int>> {
    if "inodeFlags" !in fields || fields["inodeFlags"].JNull? then Some(None)
    else
      var flags :- IntField(py, fields, "inodeFlags");
      Some(Some(flags))
  }

  /** _decode_stored_file. */
  function DecodeStoredFile(py: Python, v: Json): Option<Snapshot> {
    if v.JObject? then DecodeFields(py, v.fields) else None
  }

  function DecodeFields(py: Python, fields: map<string, Json>): Option<Snapshot> {
    var named :- Field(fields, "name");
    var name :- StringOf(named);
    if name != HashRecord.CONFIG_NAME && name != HASH_NAME then None
    else
      var uid :- IntField(py, fields, "uid");
      var gid :- IntField(py, fields, "gid");
      var mode :- IntField(py, fields, "mode");
      var atime :- IntField(py, fields, "atimeNs");
      var mtime :- IntField(py, fields, "mtimeNs");
      var encoded :- Field(fields, "data");
      var data :- BytesOf(py, encoded);
      var flags :- FlagsOf(py, fields);
      var raw :- Field(fields, "xattrs");
      if |data| > Cap(name) || !raw.JArray? then None
      else
        var xattrs :- XattrsOf(py, raw.items);
        if uid < 0 || gid < 0 || mode < 0 || mode > MODE_7777 || atime < 0 || mtime < 0 then None
        else Some(Snapshot(name, uid, gid, mode, atime, mtime, data, xattrs, flags))
  }

  /** The fields are those of f. */
  predicate Describes(py: Python, fields: map<string, Json>, f: Snapshot) {
    && Field(fields, "name") == Some(JString(f.name))
    && Field(fields, "uid") == Some(JInt(f.uid)) && Field(fields, "gid") == Some(JInt(f.gid))
    && Field(fields, "mode") == Some(JInt(f.mode))
    && Field(fields, "atimeNs") == Some(JInt(f.atimeNs)) && Field(fields, "mtimeNs") == Some(JInt(f.mtimeNs))
    && Field(fields, "data") == Some(JString(Base64.Encode(f.data)))
    && Field(fields, "xattrs") == Some(StoredXattrs(f.xattrs))
    && FlagsOf(py, fields) == Some(f.inodeFlags)
  }

  lemma StoredFileDescribes(py: Python, f: Snapshot)
    ensures Describes(py, StoredFile(f).fields, f)
  {
  }

  /** A capture the guard can have made: a protected name, real mode bits, bounded bytes. */
  predicate IsCapture(f: Snapshot) {
    && (f.name == HashRecord.CONFIG_NAME || f.name == HASH_NAME)
    && f.mode <= MODE_7777 && |f.data| <= Cap(f.name)
  }

  /** Both time stamps lie at or after the epoch. */
  predicate Dated(f: Snapshot) {
    f.atimeNs >= 0 && f.mtimeNs >= 0
  }

  lemma XattrRoundTrip(py: Python, x: (string, Bytes))
    ensures XattrOf(py, JArray([JString(x.0), JString(Base64.Encode(x.1))])) == Some(x)
  {
    hide Base64.Encode, Base64.Decode;
    Base64.RoundTrip(x.1);
  }

  lemma XattrsStep(py: Python, items: seq<Json>, x: (string, Bytes), rest: seq<(string, Bytes)>)
    requires items != [] && XattrOf(py, items[0]) == Some(x) && XattrsOf(py, items[1..]) == Some(rest)
    ensures XattrsOf(py, items) == Some([x] + rest)
  {
    hide XattrOf;
  }

  lemma {:induction false} XattrsRoundTrip(py: Python, xattrs: seq<(string, Bytes)>)
    ensures XattrsOf(py, StoredXattrs(xattrs).items) == Some(xattrs)
  {
    hide XattrOf, XattrsOf, Base64.Encode;
    var items := StoredXattrs(xattrs).items;
    if xattrs == [] {
      NoXattrs(py);
    } else {
      var rest := xattrs[1..];
      XattrRoundTrip(py, xattrs[0]);
      XattrsRoundTrip(py, rest);
      assert items[1..] == StoredXattrs(rest).items;
      XattrsStep(py, items, xattrs[0], rest);
      assert [xattrs[0]] + rest == xattrs;
    }
  }

  lemma NoXattrs(py: Python)
    ensures XattrsOf(py, []) == Some([])
  {
  }

  /** A stored file is read back exactly, unless a time stamp lies before the epoch: then
      what the writer stored is refused. */
  lemma StoredFileRoundTripIff(py: Python, f: Snapshot)
    requires IsCapture(f)
    ensures DecodeStoredFile(py, StoredFile(f)) == (if Dated(f) then Some(f) else None)
  {
    Base64.RoundTrip(f.data);
    XattrsRoundTrip(py, f.xattrs);
    StoredFileDescribes(py, f);
    DescribedIsDecoded(py, StoredFile(f).fields, f);
  }

  lemma DescribedIsDecoded(py: Python, fields: map<string, Json>, f: Snapshot)
    requires IsCapture(f) && Describes(py, fields, f)
    requires Base64.Decode(Base64.Encode(f.data)) == Some(f.data)
    requires XattrsOf(py, StoredXattrs(f.xattrs).items) == Some(f.xattrs)
    ensures DecodeFields(py, fields) == (if Dated(f) then Some(f) else None)
  {
  }

  // ----- a pair of files

  function StoredPair(p: Pair<Snapshot>): Json {
    JArray([StoredFile(p.config), StoredFile(p.hash)])
  }

  function DecodePair(py: Python, fields: map<string, Json>, key: string): Option<Pair<Snapshot>> {
    var v :- Field(fields, key);
    if !v.JArray? || |v.items| != 2 then None
    else
      var config :- DecodeStoredFile(py, v.items[0]);
      var hash :- DecodeStoredFile(py, v.items[1]);
      if config.name == HashRecord.CONFIG_NAME && hash.name == HASH_NAME then Some(Pair(config, hash)) else None
  }

  predicate IsCapturedPair(p: Pair<Snapshot>) {
    && IsCapture(p.config) && p.config.name == HashRecord.CONFIG_NAME
    && IsCapture(p.hash) && p.hash.name == HASH_NAME
  }

  predicate DatedPair(p: Pair<Snapshot>) {
    Dated(p.config) && Dated(p.hash)
  }

  lemma PairRoundTripIff(py: Python, fields: map<string, Json>, key: string, p: Pair<Snapshot>)
    requires IsCapturedPair(p) && Field(fields, key) == Some(StoredPair(p))
    ensures DecodePair(py, fields, key) == if DatedPair(p) then Some(p) else None
  {
    StoredFileRoundTripIff(py, p.config);
    StoredFileRoundTripIff(py, p.hash);
  }

  // ----- the write-config record

  function PhaseName(phase: WritePhase): string {
    match phase
    case Prepared => "prepared"
    case Applying => "applying"
    case Committed => "committed"
  }

  function PhaseOf(v: Option<Json>): Option<WritePhase> {
    if v == Some(JString("prepared")) then Some(Prepared)
    else if v == Some(JString("applying")) then Some(Applying)
    else if v == Some(JString("committed")) then Some(Committed)
    else None
  }

  predicate IsDigest(s: string) {
    |s| == 64 && forall i :: 0 <= i < |s| ==> IsLowerHex(s[i])
  }

  function DigestField(fields: map<string, Json>, key: string): Option<Digest> {
    var v :- Field(fields, key);
    if v.JString? && IsDigest(v.s) then Some(v.s) else None
  }

  /** What a decoded write-config record holds. */
  datatype WriteRecord = WriteRecord(phase: WritePhase, originals: Pair<Snapshot>,
                                     replacements: Pair<Snapshot>, digest: Digest)

  /** _journal_record. */
  function WriteJson(w: WriteRecord, expected: Digest): (v: Json)
    ensures v.JObject?
  {
    JObject(map[
      "version" := JInt(1),
      "action" := JString("write-config"),
      "phase" := JString(PhaseName(w.phase)),
      "configDir" := JString(CONFIG_DIR),
      "expectedConfigSha256" := JString(expected),
      "newConfigSha256" := JString(w.digest),
      "original" := StoredPair(w.originals),
      "replacement" := StoredPair(w.replacements)
    ])
  }

  /** Equal to the number one, as Python compares. */
  predicate IsVersionOne(v: Option<Json>) {
    v == Some(JInt(1)) || v == Some(JBool(true)) || v == Some(JReal(1.0))
  }

  predicate WriteHeader(fields: map<string, Json>) {
    && IsVersionOne(Field(fields, "version"))
    && Field(fields, "action") == Some(JString("write-config"))
    && Field(fields, "configDir") == Some(JString(CONFIG_DIR))
  }

  /** _decode_journal. */
  function DecodeWrite(facts: Facts, py: Python, fields: map<string, Json>): Option<WriteRecord> {
    if !WriteHeader(fields) then None
    else
      var phase :- PhaseOf(Field(fields, "phase"));
      var digest :- DigestField(fields, "newConfigSha256");
      var originals :- DecodePair(py, fields, "original");
      var replacements :- DecodePair(py, fields, "replacement");
      if facts.sha256(replacements.config.data) == digest
         && replacements.hash.data == HashRecord.RecordFor(digest)
      then Some(WriteRecord(phase, originals, replacements, digest)) else None
  }

  predicate DescribesWrite(fields: map<string, Json>, w: WriteRecord) {
    && WriteHeader(fields) && PhaseOf(Field(fields, "phase")) == Some(w.phase)
    && DigestField(fields, "newConfigSha256") == Some(w.digest)
    && Field(fields, "original") == Some(StoredPair(w.originals))
    && Field(fields, "replacement") == Some(StoredPair(w.replacements))
  }

  lemma WriteJsonDescribes(w: WriteRecord, expected: Digest)
    ensures DescribesWrite(WriteJson(w, expected).fields, w)
  {
  }

  /** A record as the writer makes it: captured originals, replacements with their record. */
  predicate IsWritten(facts: Facts, w: WriteRecord) {
    && IsCapturedPair(w.originals) && IsCapturedPair(w.replacements)
    && w.digest == facts.sha256(w.replacements.config.data)
    && w.replacements.hash.data == HashRecord.RecordFor(w.digest)
  }

  /** Recovery reads back exactly what the writer wrote, in every phase, unless one of the
      four files bears a time stamp before the epoch: then it refuses the record. */
  lemma WriteRecordRoundTripIff(facts: Facts, py: Python, w: WriteRecord, expected: Digest)
    requires IsWritten(facts, w)
    ensures DecodeWrite(facts, py, WriteJson(w, expected).fields) ==
            if DatedPair(w.originals) && DatedPair(w.replacements) then Some(w) else None
  {
    WriteJsonDescribes(w, expected);
    DescribedWriteIsDecoded(facts, py, WriteJson(w, expected).fields, w);
  }

  lemma DescribedWriteIsDecoded(facts: Facts, py: Python, fields: map<string, Json>, w: WriteRecord)
    requires IsWritten(facts, w) && DescribesWrite(fields, w)
    ensures DecodeWrite(facts, py, fields) ==
            if DatedPair(w.originals) && DatedPair(w.replacements) then Some(w) else None
  {
    PairRoundTripIff(py, fields, "original", w.originals);
    PairRoundTripIff(py, fields, "replacement", w.replacements);
  }

  // ----- the restart record

  function RestartPhaseName(phase: RestartPhase): string {
    match phase
    case SealPrepared => "prepared"
    case SealApplying => "applying"
    case Sealed => "sealed"
    case Unsealing => "unsealing"
    case UnsealCommitted => "unseal-committed"
  }

  function RestartPhaseOf(v: Option<Json>): Option<RestartPhase> {
    if v == Some(JString("prepared")) then Some(SealPrepared)
    else if v == Some(JString("applying")) then Some(SealApplying)
    else if v == Some(JString("sealed")) then Some(Sealed)
    else if v == Some(JString("unsealing")) then Some(Unsealing)
    else if v == Some(JString("unseal-committed")) then Some(UnsealCommitted)
    else None
  }

  datatype RestartRecord = RestartRecord(phase: RestartPhase, originalLocked: bool,
                                         originals: Pair<Snapshot>, digest: Digest)

  /** _restart_journal_record. */
  function RestartJson(w: RestartRecord): (v: Json)
    ensures v.JObject?
  {
    JObject(map[
      "version" := JInt(1),
      "action" := JString("restart-seal"),
      "phase" := JString(RestartPhaseName(w.phase)),
      "configDir" := JString(CONFIG_DIR),
      "originalLocked" := JBool(w.originalLocked),
      "configSha256" := JString(w.digest),
      "original" := StoredPair(w.originals)
    ])
  }

  predicate RestartHeader(fields: map<string, Json>) {
    && IsVersionOne(Field(fields, "version"))
    && Field(fields, "action") == Some(JString("restart-seal"))
    && Field(fields, "configDir") == Some(JString(CONFIG_DIR))
  }

  function LockedField(fields: map<string, Json>): Option<bool> {
    var v :- Field(fields, "originalLocked");
    if v.JBool? then Some(v.b) else None
  }

  /** No immutable or append-only inode flag. */
  predicate Unblocked(f: Snapshot) {
    f.inodeFlags.Some? ==> f.inodeFlags.value / 16 % 2 == 0 && f.inodeFlags.value / 32 % 2 == 0
  }

  /** _validate_recovery_posture, and what write-config demands of the pair it captures. */
  predicate MutablePosture(id: Identity, p: Pair<Snapshot>) {
    && p.config.uid == id.sandboxUid && p.config.gid == id.sandboxGid && p.config.mode == MODE_0660
    && p.hash.uid == id.sandboxUid && p.hash.gid == id.sandboxGid && p.hash.mode == MODE_0660
    && Unblocked(p.config) && Unblocked(p.hash)
  }

  /** The posture a restart record must describe. */
  predicate RestartPosture(id: Identity, locked: bool, p: Pair<Snapshot>) {
    if locked then
      && p.config.uid == id.rootUid && p.config.gid == id.rootGid && p.config.mode == MODE_0444
      && p.hash.uid == id.rootUid && p.hash.gid == id.rootGid && p.hash.mode == MODE_0444
    else MutablePosture(id, p)
  }

  /** _decode_restart_journal. */
  function DecodeRestart(facts: Facts, py: Python, id: Identity, fields: map<string, Json>): Option<RestartRecord> {
    if !RestartHeader(fields) then None
    else
      var phase :- RestartPhaseOf(Field(fields, "phase"));
      var locked :- LockedField(fields);
      var digest :- DigestField(fields, "configSha256");
      var originals :- DecodePair(py, fields, "original");
      if facts.sha256(originals.config.data) == digest && facts.json5Object(originals.config.data)
         && RestartPosture(id, locked, originals)
      then Some(RestartRecord(phase, locked, originals, digest)) else None
  }

  predicate DescribesRestart(fields: map<string, Json>, w: RestartRecord) {
    && RestartHeader(fields) && RestartPhaseOf(Field(fields, "phase")) == Some(w.phase)
    && LockedField(fields) == Some(w.originalLocked)
    && DigestField(fields, "configSha256") == Some(w.digest)
    && Field(fields, "original") == Some(StoredPair(w.originals))
  }

  lemma RestartJsonDescribes(w: RestartRecord)
    ensures DescribesRestart(RestartJson(w).fields, w)
  {
  }

  /** A restart record is read back exactly when its files are dated, its config is a JSON5
      object and its images have the posture it claims. */
  lemma RestartRecordRoundTripIff(facts: Facts, py: Python, id: Identity, w: RestartRecord)
    requires IsCapturedPair(w.originals) && w.digest == facts.sha256(w.originals.config.data)
    ensures DecodeRestart(facts, py, id, RestartJson(w).fields) ==
            if DatedPair(w.originals) && facts.json5Object(w.originals.config.data)
               && RestartPosture(id, w.originalLocked, w.originals)
            then Some(w) else None
  {
    RestartJsonDescribes(w);
    PairRoundTripIff(py, RestartJson(w).fields, "original", w.originals);
    DescribedRestartIsDecoded(facts, py, id, RestartJson(w).fields, w);
  }

  lemma DescribedRestartIsDecoded(facts: Facts, py: Python, id: Identity, fields: map<string, Json>, w: RestartRecord)
    requires DescribesRestart(fields, w) && w.digest == facts.sha256(w.originals.config.data)
    requires DecodePair(py, fields, "original") == if DatedPair(w.originals) then Some(w.originals) else None
    ensures DecodeRestart(facts, py, id, fields) ==
            if DatedPair(w.originals) && facts.json5Object(w.originals.config.data)
               && RestartPosture(id, w.originalLocked, w.originals)
            then Some(w) else None
  {
  }

  // ----- the records of the protocol

  function Who(root: nat, sandbox: nat, id: nat): Principal {
    if id == root then Root else if id == sandbox then Sandbox else Stranger
  }

  function ImageOf(id: Identity, f: Snapshot): Image {
    Image(Who(id.rootUid, id.sandboxUid, f.uid), Who(id.rootGid, id.sandboxGid, f.gid), f.mode, f.data)
  }

  function ImagesOf(id: Identity, p: Pair<Snapshot>): Pair<Image> {
    Pair(ImageOf(id, p.config), ImageOf(id, p.hash))
  }

  /** The protocol's view of a decoded write record. */
  function RecordOf(id: Identity, w: WriteRecord, expected: Digest): Record {
    Write(w.phase, expected, w.digest, ImagesOf(id, w.originals), ImagesOf(id, w.replacements))
  }

  /** _replacement_records: one file of the new pair. */
  function Replacement(id: Identity, f: Snapshot, data: Bytes, commitTimeNs: nat): Snapshot {
    f.(uid := id.sandboxUid, gid := id.sandboxGid, mode := MODE_0660, mtimeNs := commitTimeNs,
       data := data, inodeFlags := if f.inodeFlags.None? then None else Some(Unblock(f.inodeFlags.value)))
  }

  function Unblock(flags: int): int {
    flags - flags / 16 % 2 * 16 - flags / 32 % 2 * 32
  }

  function WrittenRecord(facts: Facts, id: Identity, phase: WritePhase, originals: Pair<Snapshot>,
                         replacement: Bytes, commitTimeNs: nat): WriteRecord {
    var digest := facts.sha256(replacement);
    WriteRecord(phase, originals,
                Pair(Replacement(id, originals.config, replacement, commitTimeNs),
                     Replacement(id, originals.hash, HashRecord.RecordFor(digest), commitTimeNs)),
                digest)
  }

  /** The two flag bits of a number split at bit six. */
  lemma FlagBits(high: int, low: int)
    requires 0 <= low < 64
    ensures (high * 64 + low) / 16 % 2 == low / 16 % 2
    ensures (high * 64 + low) / 32 % 2 == low / 32
  {
    assert (high * 64 + low) / 16 == high * 4 + low / 16;
    assert (high * 64 + low) / 32 == high * 2 + low / 32;
  }

  lemma UnblockClearsFlags(flags: int)
    requires flags >= 0
    ensures Unblock(flags) / 16 % 2 == 0 && Unblock(flags) / 32 % 2 == 0
    ensures 0 <= Unblock(flags) <= flags
  {
    var high, low := flags / 64, flags % 64;
    FlagBits(high, low);
    assert low - low / 16 % 2 * 16 - low / 32 * 32 == low % 16 by {
      LowBits(low / 16);
    }
    FlagBits(high, low % 16);
    assert low % 16 / 16 == 0 && low % 16 / 32 == 0;
    assert Unblock(flags) == high * 64 + low % 16;
  }

  lemma LowBits(q: int)
    requires 0 <= q < 4
    ensures q % 2 + q / 2 * 2 == q
  {
  }

  /** Inode flags, where the file system has them, are a non-negative number. */
  predicate Flagged(f: Snapshot) {
    f.inodeFlags.Some? ==> f.inodeFlags.value >= 0
  }

  /** What recovery accepts of a write record: it decodes, and both pairs have the posture. */
  function RecoverableWrite(facts: Facts, py: Python, id: Identity, fields: map<string, Json>): Option<WriteRecord> {
    var w :- DecodeWrite(facts, py, fields);
    if MutablePosture(id, w.originals) && MutablePosture(id, w.replacements) then Some(w) else None
  }

  /** The record write-config puts on paper means the record the protocol reasons about. Its
      replacements have the posture recovery demands, inode flags included, whatever the
      captured files had; and recovery accepts it exactly when the captured files have that
      posture and are dated. */
  lemma WrittenRecordMeans(facts: Facts, py: Python, id: Identity, phase: WritePhase, originals: Pair<Snapshot>,
                           expected: Digest, replacement: Bytes, commitTimeNs: nat)
    requires IsCapturedPair(originals) && |replacement| <= MAX_CONFIG_BYTES
    requires Flagged(originals.config) && Flagged(originals.hash)
    requires id.rootUid != id.sandboxUid && id.rootGid != id.sandboxGid
    ensures var w := WrittenRecord(facts, id, phase, originals, replacement, commitTimeNs);
      && RecordOf(id, w, expected) == W.JournalRecord(facts, phase, ImagesOf(id, originals), expected, replacement)
      && MutablePosture(id, w.replacements)
      && (RecoverableWrite(facts, py, id, WriteJson(w, expected).fields) == Some(w)
          <==> MutablePosture(id, originals) && DatedPair(originals))
  {
    var w := WrittenRecord(facts, id, phase, originals, replacement, commitTimeNs);
    HashRecord.RecordForMatches(facts, replacement, w.digest);
    WriteRecordRoundTripIff(facts, py, w, expected);
    ReplacementsArePostured(facts, id, phase, originals, replacement, commitTimeNs);
  }

  lemma ReplacementsArePostured(facts: Facts, id: Identity, phase: WritePhase, originals: Pair<Snapshot>,
                                replacement: Bytes, commitTimeNs: nat)
    requires Flagged(originals.config) && Flagged(originals.hash)
    ensures MutablePosture(id, WrittenRecord(facts, id, phase, originals, replacement, commitTimeNs).replacements)
  {
    if originals.config.inodeFlags.Some? {
      UnblockClearsFlags(originals.config.inodeFlags.value);
    }
    if originals.hash.inodeFlags.Some? {
      UnblockClearsFlags(originals.hash.inodeFlags.value);
    }
  }

  /** Owned by these ids, with these mode bits. */
  predicate OwnedAs(f: Snapshot, uid: nat, gid: nat, mode: nat) {
    f.uid == uid && f.gid == gid && f.mode == mode
  }

  /** Neither immutable, 0x10, nor append-only, 0x20. */
  predicate MayBeReplaced(f: Snapshot) {
    f.inodeFlags.Some? ==> (f.inodeFlags.value / 16) % 2 == 0 && (f.inodeFlags.value / 32) % 2 == 0
  }

  /** Every file of a record that recovery accepts is the sandbox's, readable and writable for
      owner and group alone, and free of the flags that stop a replacement; or, in a restart
      record of a locked tree, root's and read-only. */
  lemma AcceptedRecordMeans(facts: Facts, py: Python, id: Identity, fields: map<string, Json>)
    ensures RecoverableWrite(facts, py, id, fields).Some? ==>
      var w := RecoverableWrite(facts, py, id, fields).value;
      forall f :: f in {w.originals.config, w.originals.hash, w.replacements.config, w.replacements.hash} ==>
        OwnedAs(f, id.sandboxUid, id.sandboxGid, 432) && MayBeReplaced(f)
    ensures DecodeRestart(facts, py, id, fields).Some? ==>
      var w := DecodeRestart(facts, py, id, fields).value;
      forall f :: f in {w.originals.config, w.originals.hash} ==>
        if w.originalLocked then OwnedAs(f, id.rootUid, id.rootGid, 292)
        else OwnedAs(f, id.sandboxUid, id.sandboxGid, 432) && MayBeReplaced(f)
  {
    hide DecodeWrite, DecodePair;
  }

  /** A file that is read back has one of the two names, mode bits and nothing else for a mode,
      times since the epoch, and a size within the cap of its name. */
  lemma DecodedFileIsInRange(py: Python, v: Json)
    requires DecodeStoredFile(py, v).Some?
    ensures var f := DecodeStoredFile(py, v).value;
      && f.mode < 4096 && f.atimeNs >= 0 && f.mtimeNs >= 0
      && ((f.name == "openclaw.json" && |f.data| <= 16777216) || (f.name == ".config-hash" && |f.data| <= 65536))
  {
    hide XattrsOf, BytesOf;
  }

  lemma VersionsAccepted(v: Json)
    ensures IsVersionOne(Some(v)) <==> v in [JInt(1), JBool(true), JReal(1.0)]
  {
  }

  /** A record is read as what it says it is: of this version, for this directory, by this action,
      in this phase. */
  lemma AcceptedHeader(facts: Facts, py: Python, id: Identity, fields: map<string, Json>)
    ensures DecodeWrite(facts, py, fields).Some? || DecodeRestart(facts, py, id, fields).Some? ==>
      && "version" in fields && fields["version"] in [JInt(1), JBool(true), JReal(1.0)]
      && "configDir" in fields && fields["configDir"] == JString("/sandbox/.openclaw")
      && "action" in fields && "phase" in fields
    ensures DecodeWrite(facts, py, fields).Some? ==>
      && fields["action"] == JString("write-config")
      && fields["phase"] == JString(match DecodeWrite(facts, py, fields).value.phase
                                    case Prepared => "prepared"
                                    case Applying => "applying"
                                    case Committed => "committed")
    ensures DecodeRestart(facts, py, id, fields).Some? ==>
      && fields["action"] == JString("restart-seal")
      && fields["phase"] == JString(match DecodeRestart(facts, py, id, fields).value.phase
                                    case SealPrepared => "prepared"
                                    case SealApplying => "applying"
                                    case Sealed => "sealed"
                                    case Unsealing => "unsealing"
                                    case UnsealCommitted => "unseal-committed")
  {
    hide DecodePair;
  }

  /** Whatever decodes, from any JSON at all, satisfies the checks the protocol assumes. */
  lemma DecodedRecordIsSound(facts: Facts, py: Python, id: Identity, fields: map<string, Json>, expected: Digest)
    ensures DecodeWrite(facts, py, fields).Some? ==>
      DecodesWrite(facts, RecordOf(id, DecodeWrite(facts, py, fields).value, expected))
    ensures DecodeRestart(facts, py, id, fields).Some? && id.rootUid != id.sandboxUid && id.rootGid != id.sandboxGid ==>
      var w := DecodeRestart(facts, py, id, fields).value;
      ValidRestart(facts, Restart(w.phase, w.originalLocked, w.digest, ImagesOf(id, w.originals)))
  {
    hide DecodePair;
    if DecodePair(py, fields, "original").Some? {
      DecodedPairIsCaptured(py, fields, "original");
    }
    if DecodePair(py, fields, "replacement").Some? {
      DecodedPairIsCaptured(py, fields, "replacement");
    }
  }

  lemma DecodedPairIsCaptured(py: Python, fields: map<string, Json>, key: string)
    requires DecodePair(py, fields, key).Some?
    ensures IsCapturedPair(DecodePair(py, fields, key).value) && DatedPair(DecodePair(py, fields, key).value)
  {
  }
}
