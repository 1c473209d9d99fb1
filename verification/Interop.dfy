/** The deduplicating import of a newline-separated list of `otpauth` URIs. */
module Interop {
  import opened Common
  import opened Text
  import opened Entries
  import B32 = Base32
  import F = FirstOccurrence
  import O = OtpAuth
  import P = Policy

  const MAX_INTEROP_IMPORT_BYTES: nat := 16 * 1024 * 1024
  const MAX_INTEROP_ENTRIES: nat := 100_000
  const MAX_INTEROP_LINE_LEN: nat := 8 * 1024
  const MAX_INTEROP_AGG_TEXT_BYTES: nat := 2 * 1024 * 1024

  datatype ImportError = PolicyDenied | PayloadTooLarge | InvalidFormat | InvalidData

  datatype Format = OtpAuthTotpUriList | Other

  type Item = (string, TotpSecret)

  /** What the loop calls: the URI parser, the export form checked by the strict decoder, the hash, and the fresh
      identifier drawn at each line. */
  datatype Env = Env(parse: string -> Result<Item, O.OtpAuthError>,
                     normalize: TotpSecret -> Result<TotpSecret, ImportError>,
                     hash: bytes -> bytes, ids: nat -> Id)
  {
    ghost predicate CollisionFree() { forall x, y :: hash(x) == hash(y) ==> x == y }

    /** Parsed records are valid, and the export form keeps them so. */
    ghost predicate Sound() {
      && (forall uri :: parse(uri).Ok? ==> ValidItem(parse(uri).value))
      && (forall t: TotpSecret :: normalize(t).Ok? ==>
            normalize(t).value.issuer == t.issuer && normalize(t).value.accountName == t.accountName)
      && (forall t :: normalize(t).Err? ==> normalize(t).error == InvalidFormat)
      && (forall t: TotpSecret :: t.Validate().Ok? && normalize(t).Ok? ==> normalize(t).value.Validate().Ok?)
    }
  }

  predicate ValidItem(item: Item) {
    && item.1.Validate().Ok? && ValidateTitle(item.0).Ok?
    && item.1.issuer != Some("") && item.1.accountName != Some("")
  }

  /** The secret in export form, if the strict decoder takes it. */
  function Normalize(decoder: B32.Decoder, t: TotpSecret): Result<TotpSecret, ImportError> {
    match B32.Canonicalize(t.secretB32)
    case Err(_) => Err(InvalidFormat)
    case Ok(secret) =>
      if B32.DecodeStrict(decoder, secret).Err? then Err(InvalidFormat) else Ok(t.(secretB32 := secret))
  }

  function Program(policy: P.PolicyContext, parser: O.UrlParser, decoder: B32.Decoder, hash: bytes -> bytes,
                   ids: nat -> Id): Env {
    Env(uri => O.Parse(policy, parser, uri), t => Normalize(decoder, t), hash, ids)
  }

  lemma ProgramIsSound(policy: P.PolicyContext, parser: O.UrlParser, decoder: B32.Decoder, hash: bytes -> bytes,
                       ids: nat -> Id)
    ensures Program(policy, parser, decoder, hash, ids).Sound()
  {
    var env := Program(policy, parser, decoder, hash, ids);
    forall uri | env.parse(uri).Ok? ensures ValidItem(env.parse(uri).value) {
      O.ParsedSecretsAreValid(policy, parser, uri);
    }
    forall t: TotpSecret | t.Validate().Ok? && env.normalize(t).Ok? ensures env.normalize(t).value.Validate().Ok? {
      B32.CanonicalSecretIsValid(t);
    }
  }

  datatype Key = Key(issuerHash: bytes, accountHash: bytes, secretHash: bytes)

  function OrEmpty(s: Option<string>): string { if s.Some? then s.value else "" }

  function KeyOf(env: Env, t: TotpSecret): Key {
    Key(env.hash(Utf8(OrEmpty(t.issuer))), env.hash(Utf8(OrEmpty(t.accountName))), env.hash(Utf8(t.secretB32)))
  }

  function TextBytes(item: Item): nat {
    Utf8Len(item.0) + Utf8Len(OrEmpty(item.1.issuer)) + Utf8Len(OrEmpty(item.1.accountName))
  }

  /** What one line holds: nothing, or a parsed URI. */
  function ParseLine(env: Env, line: string): Result<Option<Item>, ImportError> {
    var uri := Trim(line);
    if Utf8Len(line) > MAX_INTEROP_LINE_LEN then Err(PayloadTooLarge)
    else if uri == "" then Ok(None)
    else if Utf8Len(uri) > O.MAX_OTP_AUTH_URI_LEN then Err(InvalidFormat)
    else
      match env.parse(uri)
      case Err(_) => Err(InvalidFormat)
      case Ok(item) => Ok(Some(item))
  }

  // ------------------------------------------------------------------------------------------
  // The loop
  // ------------------------------------------------------------------------------------------

  datatype State = State(entries: seq<Entry>, seen: set<Key>, agg: nat)

  /** One pass of the loop over the line with index `idx`. */
  function Pass(env: Env, st: State, idx: nat, line: string): Result<State, ImportError> {
    if idx >= MAX_INTEROP_ENTRIES then Err(PayloadTooLarge)
    else
      match ParseLine(env, line)
      case Err(e) => Err(e)
      case Ok(None) => Ok(st)
      case Ok(Some(item)) => Admit(env, st, idx, item)
  }

  function Admit(env: Env, st: State, idx: nat, item: Item): Result<State, ImportError> {
    var agg := st.agg + TextBytes(item);
    if agg > MAX_INTEROP_AGG_TEXT_BYTES then Err(PayloadTooLarge)
    else
      match env.normalize(item.1)
      case Err(e) => Err(e)
      case Ok(totp) => Insert(env, st.(agg := agg), idx, item.0, totp)
  }

  /** Keep the record unless its key was seen. */
  function Insert(env: Env, st: State, idx: nat, title: string, totp: TotpSecret): Result<State, ImportError> {
    if KeyOf(env, totp) in st.seen then Ok(st)
    else
      match NewTotp(env.ids(idx), title, totp, None)
      case Err(_) => Err(InvalidData)
      case Ok(entry) => Ok(st.(entries := st.entries + [entry], seen := st.seen + {KeyOf(env, totp)}))
  }

  function Fold(env: Env, lines: seq<string>): Result<State, ImportError>
    decreases lines
  {
    var n := |lines|;
    if n == 0 then Ok(State([], {}, 0))
    else PassIfOk(env, Fold(env, lines[..n - 1]), n - 1, lines[n - 1])
  }

  function PassIfOk(env: Env, r: Result<State, ImportError>, idx: nat, line: string): Result<State, ImportError> {
    if r.Err? then r else Pass(env, r.value, idx, line)
  }

  function EntriesOf(r: Result<State, ImportError>): Result<seq<Entry>, ImportError> {
    if r.Ok? then Ok(r.value.entries) else Err(r.error)
  }

  lemma {:induction false} ErrorsStick(env: Env, lines: seq<string>, k: nat)
    requires k <= |lines| && Fold(env, lines[..k]).Err?
    ensures Fold(env, lines) == Fold(env, lines[..k])
    decreases lines
  {
    if k == |lines| {
      assert lines[..k] == lines;
    } else {
      assert lines[..|lines| - 1][..k] == lines[..k];
      ErrorsStick(env, lines[..|lines| - 1], k);
    }
  }

  lemma FoldOfMore(env: Env, lines: seq<string>, i: nat)
    requires i < |lines|
    ensures Fold(env, lines[..i + 1]) == PassIfOk(env, Fold(env, lines[..i]), i, lines[i])
    ensures Fold(env, lines[..i + 1]).Err? ==> Fold(env, lines) == Fold(env, lines[..i + 1])
  {
    assert lines[..i + 1][..i] == lines[..i];
    if Fold(env, lines[..i + 1]).Err? { ErrorsStick(env, lines, i + 1); }
  }

  method ReadLine(env: Env, line: string) returns (r: Result<Option<Item>, ImportError>)
    ensures r == ParseLine(env, line)
  {
    if Utf8Len(line) > MAX_INTEROP_LINE_LEN { return Err(PayloadTooLarge); }
    var uri := Trim(line);
    if uri == "" { return Ok(None); }
    if Utf8Len(uri) > O.MAX_OTP_AUTH_URI_LEN { return Err(InvalidFormat); }
    var parsed := env.parse(uri);
    if parsed.Err? { return Err(InvalidFormat); }
    return Ok(Some(parsed.value));
  }

  method InsertEntry(env: Env, st: State, idx: nat, title: string, totp: TotpSecret)
    returns (r: Result<State, ImportError>)
    ensures r == Insert(env, st, idx, title, totp)
  {
    var key := KeyOf(env, totp);
    if key in st.seen { return Ok(st); }
    var entry := NewTotp(env.ids(idx), title, totp, None);
    if entry.Err? { return Err(InvalidData); }
    return Ok(st.(entries := st.entries + [entry.value], seen := st.seen + {key}));
  }

  method PassLine(env: Env, st: State, idx: nat, line: string) returns (r: Result<State, ImportError>)
    ensures r == Pass(env, st, idx, line)
  {
    if idx >= MAX_INTEROP_ENTRIES { return Err(PayloadTooLarge); }
    var read := ReadLine(env, line);
    if read.Err? { return Err(read.error); }
    if read.value.None? { return Ok(st); }
    r := AdmitItem(env, st, idx, read.value.value);
  }

  method AdmitItem(env: Env, st: State, idx: nat, item: Item) returns (r: Result<State, ImportError>)
    ensures r == Admit(env, st, idx, item)
  {
    var aggTextBytes := st.agg + TextBytes(item);
    if aggTextBytes > MAX_INTEROP_AGG_TEXT_BYTES { return Err(PayloadTooLarge); }
    var normalized := env.normalize(item.1);
    if normalized.Err? { return Err(normalized.error); }
    r := InsertEntry(env, st.(agg := aggTextBytes), idx, item.0, normalized.value);
  }

  method ParseOtpauthTotpList(env: Env, lines: seq<string>) returns (r: Result<seq<Entry>, ImportError>)
    ensures r == EntriesOf(Fold(env, lines))
  {
    var st := State([], {}, 0);
    for idx := 0 to |lines|
      invariant Fold(env, lines[..idx]) == Ok(st)
    {
      FoldOfMore(env, lines, idx);
      var next := PassLine(env, st, idx, lines[idx]);
      if next.Err? { return Err(next.error); }
      st := next.value;
    }
    assert lines[..|lines|] == lines;
    return Ok(st.entries);
  }

  // ------------------------------------------------------------------------------------------
  // What an accepted list means
  // ------------------------------------------------------------------------------------------

  predicate Readable(env: Env, line: string) {
    var p := ParseLine(env, line);
    p.Ok? && (p.value.Some? ==> env.normalize(p.value.value.1).Ok?)
  }

  /** The record on a line, with its secret in export form. */
  function RecordAt(env: Env, line: string): Option<Item> {
    var p := ParseLine(env, line);
    if Readable(env, line) && p.value.Some? then
      Some((p.value.value.0, env.normalize(p.value.value.1).value))
    else None
  }

  /** The entry a record becomes. */
  function EntryFrom(env: Env, idx: nat, r: Item): Entry {
    Entry(EntryMeta(env.ids(idx), Totp), EntrySecret(r.0, None, None, r.1.secretB32, None, Some(r.1)))
  }

  /** What the loop makes of the line with index `idx`. */
  function CellAt(env: Env, idx: nat, line: string): F.Cell<Key, Entry> {
    var r := RecordAt(env, line);
    if !Readable(env, line) then F.Bad
    else if r.None? then F.Blank
    else F.Item(KeyOf(env, r.value.1), TextBytes(r.value), EntryFrom(env, idx, r.value))
  }

  function Cells(env: Env, lines: seq<string>): (r: seq<F.Cell<Key, Entry>>)
    ensures |r| == |lines| && forall i :: 0 <= i < |lines| ==> r[i] == CellAt(env, i, lines[i])
  {
    seq(|lines|, i requires 0 <= i < |lines| => CellAt(env, i, lines[i]))
  }

  const LIMITS: F.Limits := F.Limits(MAX_INTEROP_ENTRIES, MAX_INTEROP_AGG_TEXT_BYTES)

  /** A record has a valid title and secret, and no empty issuer or account. */
  lemma RecordsAreValid(env: Env, line: string)
    requires env.Sound() && RecordAt(env, line).Some?
    ensures ValidItem(RecordAt(env, line).value)
  {
  }

  lemma InsertMeans(env: Env, st: State, idx: nat, title: string, t: TotpSecret)
    requires t.Validate().Ok? && ValidateTitle(title).Ok?
    ensures Insert(env, st, idx, title, t) ==
              Ok(if KeyOf(env, t) in st.seen then st
                 else st.(entries := st.entries + [EntryFrom(env, idx, (title, t))], seen := st.seen + {KeyOf(env, t)}))
  {
  }

  /** The loop's state is the run's state. */
  predicate Agree(r: Result<State, ImportError>, c: Option<F.State<Key, Entry>>) {
    && (r.Ok? <==> c.Some?)
    && (r.Ok? ==>
          c.value == F.State(r.value.entries, r.value.seen, r.value.agg) && r.value.agg <= MAX_INTEROP_AGG_TEXT_BYTES)
  }

  /** One pass of the loop is one pass over the cell of its line. */
  lemma PassMeans(env: Env, st: State, idx: nat, line: string)
    requires env.Sound() && st.agg <= MAX_INTEROP_AGG_TEXT_BYTES
    ensures Agree(Pass(env, st, idx, line),
                  F.Pass(LIMITS, F.State(st.entries, st.seen, st.agg), idx, CellAt(env, idx, line)))
  {
    var p := ParseLine(env, line);
    if p.Ok? && p.value.Some? {
      var item := p.value.value;
      if env.normalize(item.1).Ok? {
        InsertMeans(env, st.(agg := st.agg + TextBytes(item)), idx, item.0, env.normalize(item.1).value);
      }
    }
  }

  lemma StepAgrees(env: Env, r: Result<State, ImportError>, c: Option<F.State<Key, Entry>>, idx: nat, line: string)
    requires env.Sound() && Agree(r, c)
    ensures Agree(PassIfOk(env, r, idx, line), F.PassIfSome(LIMITS, c, idx, CellAt(env, idx, line)))
  {
    if r.Ok? { PassMeans(env, r.value, idx, line); }
  }

  lemma {:induction false} FoldIsRun(env: Env, lines: seq<string>)
    requires env.Sound()
    ensures Agree(Fold(env, lines), F.Run(LIMITS, Cells(env, lines)))
    decreases lines
  {
    var n := |lines|;
    if n > 0 {
      FoldIsRun(env, lines[..n - 1]);
      CellsOfPrefix(env, lines[..n - 1], lines[n - 1..]);
      assert lines == lines[..n - 1] + lines[n - 1..];
      StepAgrees(env, Fold(env, lines[..n - 1]), F.Run(LIMITS, Cells(env, lines[..n - 1])), n - 1, lines[n - 1]);
    }
  }

  /** The list is accepted exactly when it has few enough lines, every line is readable and there is little enough
      text; then there is one entry per distinct key, made from the line where the key occurs first, in line order. */
  lemma {:induction false} AcceptedListKeepsFirstOccurrences(env: Env, lines: seq<string>)
    requires env.Sound()
    ensures Fold(env, lines).Ok? <==>
              && |lines| <= MAX_INTEROP_ENTRIES && (forall l :: l in lines ==> Readable(env, l))
              && F.Total(Cells(env, lines)) <= MAX_INTEROP_AGG_TEXT_BYTES
    ensures Fold(env, lines).Ok? ==>
              var cells := Cells(env, lines);
              && Fold(env, lines).value.entries == F.FirstEntries(cells)
              && |Fold(env, lines).value.entries| == |F.Keys(cells)|
              && Fold(env, lines).value.seen == F.Keys(cells)
  {
    FoldIsRun(env, lines);
    F.RunMeans(LIMITS, Cells(env, lines));
    F.OneEntryPerKey(Cells(env, lines));
    BadCells(env, lines);
  }

  lemma BadCells(env: Env, lines: seq<string>)
    ensures (forall l :: l in lines ==> Readable(env, l)) <==> forall i :: 0 <= i < |lines| ==>
            !Cells(env, lines)[i].Bad?
  {
    assert forall i :: 0 <= i < |lines| ==> (Readable(env, lines[i]) <==> !Cells(env, lines)[i].Bad?);
  }

  // ------------------------------------------------------------------------------------------
  // Keys as (issuer, account, canonical secret)
  // ------------------------------------------------------------------------------------------

  lemma Utf8Injective(a: string, b: string)
    requires Utf8(a) == Utf8(b)
    ensures a == b
  {
    Utf8RoundTrip(a);
    Utf8RoundTrip(b);
  }

  /** With a collision-free hash, two records share a key exactly when issuer, account and secret agree. */
  lemma KeysAreTriples(env: Env, a: string, b: string)
    requires env.Sound() && env.CollisionFree() && RecordAt(env, a).Some? && RecordAt(env, b).Some?
    ensures var s, t := RecordAt(env, a).value.1, RecordAt(env, b).value.1;
            KeyOf(env, s) == KeyOf(env, t) <==>
              s.issuer == t.issuer && s.accountName == t.accountName && s.secretB32 == t.secretB32
  {
    RecordsAreValid(env, a);
    RecordsAreValid(env, b);
    var s, t := RecordAt(env, a).value.1, RecordAt(env, b).value.1;
    if KeyOf(env, s) == KeyOf(env, t) {
      Utf8Injective(OrEmpty(s.issuer), OrEmpty(t.issuer));
      Utf8Injective(OrEmpty(s.accountName), OrEmpty(t.accountName));
      Utf8Injective(s.secretB32, t.secretB32);
    }
  }

  // ------------------------------------------------------------------------------------------
  // Permuted and repeated lists
  // ------------------------------------------------------------------------------------------

  /** A line's key and text size do not depend on where it stands. */
  function FaceOf(env: Env): string -> F.Cell<Key, ()> {
    line => CellAt(env, 0, line).Face()
  }

  lemma FacesOfLines(env: Env, lines: seq<string>)
    ensures F.Faces(Cells(env, lines)) == F.Map(FaceOf(env), lines)
  {
    forall i | 0 <= i < |lines| ensures Cells(env, lines)[i].Face() == FaceOf(env)(lines[i]) {}
  }

  /** The order of the lines decides neither acceptance nor which keys come out. */
  lemma {:induction false} PermutedListsAgree(env: Env, a: seq<string>, b: seq<string>)
    requires env.Sound() && multiset(a) == multiset(b)
    ensures Fold(env, a).Ok? <==> Fold(env, b).Ok?
    ensures Fold(env, a).Ok? ==>
              && Fold(env, a).value.seen == Fold(env, b).value.seen
              && |Fold(env, a).value.entries| == |Fold(env, b).value.entries|
  {
    FacesOfLines(env, a);
    FacesOfLines(env, b);
    F.PermutedMap(FaceOf(env), a, b);
    F.PermutedRunsAgree(LIMITS, Cells(env, a), Cells(env, b));
    FoldIsRun(env, a);
    FoldIsRun(env, b);
  }

  lemma CellsOfPrefix(env: Env, lines: seq<string>, more: seq<string>)
    ensures Cells(env, lines + more)[..|lines|] == Cells(env, lines)
  {
    forall i | 0 <= i < |lines| ensures Cells(env, lines + more)[i] == Cells(env, lines)[i] {
      assert (lines + more)[i] == lines[i];
    }
  }

  lemma FacesTwice(env: Env, lines: seq<string>)
    ensures var both := Cells(env, lines + lines);
            F.Faces(both) == F.Faces(Cells(env, lines)) + F.Faces(Cells(env, lines))
  {
    FacesOfLines(env, lines);
    FacesOfLines(env, lines + lines);
    F.MapOfConcat(FaceOf(env), lines, lines);
  }

  lemma RunTwice(env: Env, lines: seq<string>)
    requires F.Run(LIMITS, Cells(env, lines)).Some?
    ensures var once, twice := F.Run(LIMITS, Cells(env, lines)), F.Run(LIMITS, Cells(env, lines + lines));
            && (twice.Some? <==>
                  2 * |lines| <= MAX_INTEROP_ENTRIES && 2 * once.value.weight <= MAX_INTEROP_AGG_TEXT_BYTES)
            && (twice.Some? ==> twice.value.entries == once.value.entries && twice.value.seen == once.value.seen)
  {
    CellsOfPrefix(env, lines, lines);
    FacesTwice(env, lines);
    F.RunningAgain(LIMITS, Cells(env, lines + lines), |lines|);
  }

  /** Importing a list twice over gives the same entries as importing it once, exactly when it still fits. */
  lemma {:induction false} DoubledListAddsNothing(env: Env, lines: seq<string>)
    requires env.Sound() && Fold(env, lines).Ok?
    ensures Fold(env, lines + lines).Ok? <==>
              2 * |lines| <= MAX_INTEROP_ENTRIES && 2 * Fold(env, lines).value.agg <= MAX_INTEROP_AGG_TEXT_BYTES
    ensures Fold(env, lines + lines).Ok? ==>
              Fold(env, lines + lines).value.entries == Fold(env, lines).value.entries
              && Fold(env, lines + lines).value.seen == Fold(env, lines).value.seen
  {
    FoldIsRun(env, lines);
    RunTwice(env, lines);
    FoldIsRun(env, lines + lines);
  }

  // ------------------------------------------------------------------------------------------
  // The checks after the loop, and the commit
  // ------------------------------------------------------------------------------------------

  predicate SoundEntry(e: Entry) {
    && e.meta.entryType.Totp? && e.secret.totp.Some? && e.secret.totp.value.Validate().Ok?
    && e.secret.secret == e.secret.totp.value.secretB32
  }

  predicate PayloadOk(entries: seq<Entry>) {
    |entries| <= MAX_INTEROP_ENTRIES && forall e :: e in entries ==> SoundEntry(e)
  }

  method ValidatePayloadInvariants(entries: seq<Entry>) returns (r: Result<(), ImportError>)
    ensures r.Ok? <==>
              && |entries| <= 100_000
              && forall e :: e in entries ==>
                   && e.meta.entryType.Totp? && e.secret.totp.Some? && e.secret.totp.value.Validate().Ok?
                   && e.secret.secret == e.secret.totp.value.secretB32
    ensures r.Ok? <==> PayloadOk(entries)
    ensures r.Err? ==> r == Err(if |entries| > MAX_INTEROP_ENTRIES then PayloadTooLarge else InvalidData)
  {
    if |entries| > MAX_INTEROP_ENTRIES { return Err(PayloadTooLarge); }
    for i := 0 to |entries|
      invariant forall j :: 0 <= j < i ==> SoundEntry(entries[j])
    {
      var e := entries[i];
      assert e in entries;
      if e.meta.entryType != Totp { return Err(InvalidData); }
      if e.secret.totp.None? { return Err(InvalidData); }
      if e.secret.totp.value.Validate().Err? { return Err(InvalidData); }
      if e.secret.secret != e.secret.totp.value.secretB32 { return Err(InvalidData); }
    }
    return Ok(());
  }

  /** What the loop accepts always passes these checks, and keeps every promise of the entry constructors. */
  lemma LoopOutputIsNeverRejected(env: Env, lines: seq<string>)
    requires env.Sound() && Fold(env, lines).Ok?
    ensures PayloadOk(Fold(env, lines).value.entries)
            && Validated(Fold(env, lines)) == Ok(Fold(env, lines).value.entries)
    ensures forall e :: e in Fold(env, lines).value.entries ==> Good(e)
  {
    var cells := Cells(env, lines);
    AcceptedListKeepsFirstOccurrences(env, lines);
    var at, es := F.FirstPositions(cells, |cells|), F.FirstEntries(cells);
    F.EntriesAtFirstPositions(cells);
    F.FewPositions(cells, |cells|);
    forall j | 0 <= j < |es| ensures SoundEntry(es[j]) && Good(es[j]) {
      assert F.IsFirst(cells, at[j]);
      CellsAreSound(env, at[j], lines[at[j]]);
    }
  }

  lemma CellsAreSound(env: Env, idx: nat, line: string)
    requires env.Sound() && CellAt(env, idx, line).Item?
    ensures SoundEntry(CellAt(env, idx, line).entry) && Good(CellAt(env, idx, line).entry)
  {
    RecordsAreValid(env, line);
  }

  /** `str::lines`: split at newlines, one trailing carriage return dropped, no empty last line. */
  function Lines(s: string): seq<string> {
    var parts := Split(s, '\n');
    var n := |parts|;
    Chomped(if parts[n - 1] == "" then parts[..n - 1] else parts, n)
  }

  function Chomp(s: string): string { if s != "" && s[|s| - 1] == '\r' then s[..|s| - 1] else s }

  function Chomped(parts: seq<string>, n: nat): (r: seq<string>)
    ensures |r| == |parts|
  {
    seq(|parts|, i requires 0 <= i < |parts| => if i == n - 1 then parts[i] else Chomp(parts[i]))
  }

  function Validated(r: Result<State, ImportError>): Result<seq<Entry>, ImportError> {
    if r.Ok? && !PayloadOk(r.value.entries) then
      Err(if |r.value.entries| > MAX_INTEROP_ENTRIES then PayloadTooLarge else InvalidData)
    else EntriesOf(r)
  }

  /** The import of a whole file. */
  function Quarantined(policy: P.PolicyContext, env: Env, format: Format, input: bytes): Result<seq<Entry>,
    ImportError> {
    if !policy.AllowExposure() then Err(ImportError.PolicyDenied)
    else if input == [] || |input| > MAX_INTEROP_IMPORT_BYTES then Err(PayloadTooLarge)
    else if format.Other? || DecodeUtf8(input).None? then Err(InvalidFormat)
    else Validated(Fold(env, Lines(DecodeUtf8(input).value)))
  }

  method ImportInteropQuarantine(policy: P.PolicyContext, parser: O.UrlParser, decoder: B32.Decoder,
                                 hash: bytes -> bytes, ids: nat -> Id, format: Format, input: bytes)
    returns (r: Result<seq<Entry>, ImportError>)
    ensures r == Quarantined(policy, Program(policy, parser, decoder, hash, ids), format, input)
  {
    if !policy.AllowExposure() { return Err(ImportError.PolicyDenied); }
    if input == [] || |input| > MAX_INTEROP_IMPORT_BYTES { return Err(PayloadTooLarge); }
    if format.Other? { return Err(InvalidFormat); }
    var text := DecodeUtf8(input);
    if text.None? { return Err(InvalidFormat); }
    r := ParseOtpauthTotpList(Program(policy, parser, decoder, hash, ids), Lines(text.value));
    if r.Ok? {
      var ok := ValidatePayloadInvariants(r.value);
      if ok.Err? { return Err(ok.error); }
    }
  }

  /** The payload a quarantined import is appended to. */
  class Payload {
    var entries: seq<Entry>

    constructor (initial: seq<Entry>)
      ensures entries == initial
    {
      entries := initial;
    }

    method Commit(policy: P.PolicyContext, incoming: seq<Entry>) returns (r: Result<(), ImportError>)
      modifies this
      ensures r.Ok? <==> policy.AllowExposure() && |old(entries)| + |incoming| <= MAX_INTEROP_ENTRIES
      ensures r.Err? ==> r == Err(if policy.AllowExposure() then PayloadTooLarge else ImportError.PolicyDenied)
      ensures entries == if r.Ok? then old(entries) + incoming else old(entries)
    {
      if !policy.AllowExposure() { return Err(ImportError.PolicyDenied); }
      if |entries| + |incoming| > MAX_INTEROP_ENTRIES { return Err(PayloadTooLarge); }
      entries := entries + incoming;
      return Ok(());
    }
  }

  // ------------------------------------------------------------------------------------------
  // What the exporter wrote
  // ------------------------------------------------------------------------------------------

  /** An entry with issuer and account whose export fits, reads back, and decodes strictly. */
  predicate Exportable(decoder: B32.Decoder, item: Item) {
    var (title, totp) := item;
    && O.Export(title, totp).Ok? && |O.Export(title, totp).value| <= O.MAX_OTP_AUTH_URI_LEN
    && totp.issuer.Some? && totp.accountName.Some?
    && var iss, acc := totp.issuer.value, totp.accountName.value;
      && Untrimmable(iss) && Untrimmable(acc) && ':' !in iss && O.DisplayOk(iss, Some(iss), Some(acc))
      && B32.DecodeStrict(decoder, O.Canonical(totp).secretB32).Ok?
  }

  /** The line written for an entry that can be exported. */
  function ExportLine(item: Item): string {
    var uri := O.Export(item.0, item.1);
    if uri.Ok? then uri.value else ""
  }

  /** What the import makes of it: the issuer becomes the title. */
  function Imported(item: Item): Item {
    if item.1.issuer.Some? && B32.Canonicalize(item.1.secretB32).Ok? then (item.1.issuer.value, O.Canonical(item.1))
      else item
  }

  /** A line the exporter wrote reads back as the record the parser makes of it. */
  lemma {:induction false} ExportedLineReads(env: Env, policy: P.PolicyContext, parser: O.UrlParser,
                                             decoder: B32.Decoder, item: Item)
    requires O.Faithful(parser) && policy.AllowExposure() && env == Program(policy, parser, decoder, env.hash, env.ids)
    requires Exportable(decoder, item)
    ensures RecordAt(env, ExportLine(item)) == Some(Imported(item))
  {
    O.RoundTripWithAccount(policy, parser, item.0, item.1);
    O.ExportIsUntrimmable(item.0, item.1);
    O.ParsedSecretsAreValid(policy, parser, ExportLine(item));
    NormalizeKeepsCanonical(decoder, item.1);
    LineReads(env, ExportLine(item), Imported(item));
  }

  function ExportLines(items: seq<Item>): (lines: seq<string>)
    ensures |lines| == |items| && forall i :: 0 <= i < |items| ==> lines[i] == ExportLine(items[i])
  {
    seq(|items|, i requires 0 <= i < |items| => ExportLine(items[i]))
  }

  function Triple(item: Item): (Option<string>, Option<string>, string) {
    (item.1.issuer, item.1.accountName, item.1.secretB32)
  }

  ghost predicate Holds(env: Env, lines: seq<string>, records: seq<Item>) {
    |lines| == |records| && forall i :: 0 <= i < |lines| ==> RecordAt(env, lines[i]) == Some(records[i])
  }

  lemma CellsOfRecords(env: Env, lines: seq<string>, records: seq<Item>, i: nat)
    requires Holds(env, lines, records) && i < |lines|
    ensures var c := Cells(env, lines)[i];
            c.Item? && c.key == KeyOf(env, records[i].1) && c.entry == EntryFrom(env, i, records[i])
  {
    assert RecordAt(env, lines[i]) == Some(records[i]);
  }

  /** Lines with pairwise different records all become entries, in order. */
  lemma DifferentRecordsAllImport(env: Env, lines: seq<string>, records: seq<Item>)
    requires env.Sound() && env.CollisionFree() && Holds(env, lines, records)
    requires forall i, j :: 0 <= i < j < |records| ==> Triple(records[i]) != Triple(records[j])
    ensures Fold(env, lines).Ok? <==>
              |lines| <= MAX_INTEROP_ENTRIES && F.Total(Cells(env, lines)) <= MAX_INTEROP_AGG_TEXT_BYTES
    ensures var r := Fold(env, lines);
            r.Ok? ==> |r.value.entries| == |records|
                      && forall i :: 0 <= i < |records| ==> r.value.entries[i] == EntryFrom(env, i, records[i])
  {
    var cells := Cells(env, lines);
    forall i | 0 <= i < |lines|
      ensures cells[i].Item? && cells[i].key == KeyOf(env, records[i].1)
              && cells[i].entry == EntryFrom(env, i, records[i])
    {
      CellsOfRecords(env, lines, records, i);
    }
    forall i, j | 0 <= i < j < |lines| ensures cells[i].key != cells[j].key {
      assert RecordAt(env, lines[i]) == Some(records[i]) && RecordAt(env, lines[j]) == Some(records[j]);
      KeysAreTriples(env, lines[i], lines[j]);
      assert Triple(records[i]) != Triple(records[j]);
    }
    forall l | l in lines ensures Readable(env, l) {
      var i :| 0 <= i < |lines| && lines[i] == l;
      assert RecordAt(env, lines[i]) == Some(records[i]);
    }
    F.DistinctKeysAllKept(cells);
    AcceptedListKeepsFirstOccurrences(env, lines);
  }

  function AllImported(items: seq<Item>): (r: seq<Item>)
    ensures |r| == |items| && forall i :: 0 <= i < |items| ==> r[i] == Imported(items[i])
  {
    seq(|items|, i requires 0 <= i < |items| => Imported(items[i]))
  }

  /** Importing an exported list gives back every secret, in order, each in export form and titled by its issuer. */
  lemma {:induction false} ExportedListImports(env: Env, policy: P.PolicyContext, parser: O.UrlParser,
                                               decoder: B32.Decoder, items: seq<Item>)
    requires O.Faithful(parser) && policy.AllowExposure() && env == Program(policy, parser, decoder, env.hash, env.ids)
    requires env.CollisionFree() && forall i :: 0 <= i < |items| ==> Exportable(decoder, items[i])
    requires forall i, j :: 0 <= i < j < |items| ==> Triple(Imported(items[i])) != Triple(Imported(items[j]))
    ensures Fold(env, ExportLines(items)).Ok? <==>
              |items| <= 100_000 && TextTotal(AllImported(items)) <= 2 * 1024 * 1024
    ensures var r := Fold(env, ExportLines(items));
            r.Ok? ==> |r.value.entries| == |items|
                      && forall i :: 0 <= i < |items| ==> r.value.entries[i] == EntryFrom(env, i, Imported(items[i]))
  {
    ProgramIsSound(policy, parser, decoder, env.hash, env.ids);
    forall i | 0 <= i < |items| ensures RecordAt(env, ExportLines(items)[i]) == Some(AllImported(items)[i]) {
      ExportedLineReads(env, policy, parser, decoder, items[i]);
    }
    DifferentRecordsAllImport(env, ExportLines(items), AllImported(items));
    TotalIsText(env, ExportLines(items), AllImported(items));
  }

  /** The bytes of text shown to the user: title, issuer and account. */
  function TextTotal(records: seq<Item>): nat {
    if records == [] then 0
    else
      var (title, t) := records[|records| - 1];
      TextTotal(records[..|records| - 1]) + |Utf8(title)| + |Utf8(OrEmpty(t.issuer))| + |Utf8(OrEmpty(t.accountName))|
  }

  lemma {:induction false} TotalIsText(env: Env, lines: seq<string>, records: seq<Item>)
    requires Holds(env, lines, records)
    ensures F.Total(Cells(env, lines)) == TextTotal(records)
    decreases |lines|
  {
    if lines != [] {
      var n := |lines| - 1;
      TotalIsText(env, lines[..n], records[..n]);
      CellsOfFront(env, lines);
      CellWeighsItsText(env, n, lines[n], records[n]);
    }
  }

  lemma CellsOfFront(env: Env, lines: seq<string>)
    requires lines != []
    ensures Cells(env, lines)[..|lines| - 1] == Cells(env, lines[..|lines| - 1])
  {
    var n := |lines| - 1;
    CellsOfPrefix(env, lines[..n], lines[n..]);
    assert lines == lines[..n] + lines[n..];
  }

  lemma CellWeighsItsText(env: Env, idx: nat, line: string, r: Item)
    requires RecordAt(env, line) == Some(r)
    ensures CellAt(env, idx, line).Weight() ==
              |Utf8(r.0)| + |Utf8(OrEmpty(r.1.issuer))| + |Utf8(OrEmpty(r.1.accountName))|
  {
    RecordCell(env, idx, line);
    Utf8LenIsLength(r.0);
    Utf8LenIsLength(OrEmpty(r.1.issuer));
    Utf8LenIsLength(OrEmpty(r.1.accountName));
  }

  lemma RecordCell(env: Env, idx: nat, line: string)
    requires RecordAt(env, line).Some?
    ensures var r := RecordAt(env, line).value;
            CellAt(env, idx, line) == F.Item(KeyOf(env, r.1), TextBytes(r), EntryFrom(env, idx, r))
  {
  }

  lemma NormalizeKeepsCanonical(decoder: B32.Decoder, totp: TotpSecret)
    requires B32.Canonicalize(totp.secretB32).Ok? && B32.DecodeStrict(decoder, O.Canonical(totp).secretB32).Ok?
    ensures Normalize(decoder, O.Canonical(totp)) == Ok(O.Canonical(totp))
  {
    B32.CanonicalForm(totp.secretB32);
  }

  lemma LineReads(env: Env, uri: string, item: Item)
    requires env.parse(uri) == Ok(item) && env.normalize(item.1) == Ok(item.1)
    requires Untrimmable(uri) && Utf8Len(uri) <= O.MAX_OTP_AUTH_URI_LEN
    ensures RecordAt(env, uri) == Some(item)
  {
    TrimIsIdentity(uri);
  }

  // ------------------------------------------------------------------------------------------
  // From bytes to lines
  // ------------------------------------------------------------------------------------------

  predicate NoBreak(s: string) { '\n' !in s }

  /** Text cut at newlines: every piece that a newline ends is a line, less one carriage return before the newline; what
      follows the last newline is a line as it stands, unless empty. */
  lemma LinesOfJoin(parts: seq<string>)
    requires parts != [] && forall p :: p in parts ==> NoBreak(p)
    ensures var n, lines := |parts|, Lines(Join(parts, '\n'));
            && |lines| == (if parts[n - 1] == "" then n - 1 else n)
            && (parts[n - 1] != "" ==> lines[n - 1] == parts[n - 1])
            && forall i :: 0 <= i < n - 1 ==>
                 && (parts[i] != "" && parts[i][|parts[i]| - 1] == '\r' ==> lines[i] == parts[i][..|parts[i]| - 1])
                 && (parts[i] == "" || parts[i][|parts[i]| - 1] != '\r' ==> lines[i] == parts[i])
  {
    SplitInvertsJoin(parts, '\n');
  }

  lemma {:induction false} JoinTerminated(parts: seq<string>)
    requires parts != []
    ensures Join(parts + [""], '\n') == Join(parts, '\n') + "\n"
  {
    if |parts| == 1 {
      assert (parts + [""])[1..] == [""];
    } else {
      assert (parts + [""])[1..] == parts[1..] + [""];
      JoinTerminated(parts[1..]);
    }
  }

  function WithCr(parts: seq<string>): (r: seq<string>)
    ensures |r| == |parts| && forall i :: 0 <= i < |parts| ==> r[i] == parts[i] + "\r"
  {
    seq(|parts|, i requires 0 <= i < |parts| => parts[i] + "\r")
  }

  predicate OneLine(s: string) { '\n' !in s && '\r' !in s }

  /** Lines written with newlines, with or without the final one, or with carriage returns as well, read back. */
  lemma LinesReadBack(parts: seq<string>)
    requires parts != [] && forall i :: 0 <= i < |parts| ==> OneLine(parts[i])
    ensures parts[|parts| - 1] != "" ==> Lines(Join(parts, '\n')) == parts
    ensures Lines(Join(parts, '\n') + "\n") == parts
    ensures Lines(Join(WithCr(parts), '\n') + "\n") == parts
  {
    if parts[|parts| - 1] != "" { UnterminatedLines(parts); }
    TerminatedLines(parts);
    CrLfLines(parts);
  }

  /** Every piece ended by a newline gives one line. */
  lemma TerminatedPieces(pieces: seq<string>)
    requires pieces != [] && forall i :: 0 <= i < |pieces| ==> NoBreak(pieces[i])
    ensures var lines := Lines(Join(pieces, '\n') + "\n");
            |lines| == |pieces| && forall i :: 0 <= i < |pieces| ==> lines[i] == Chomp(pieces[i])
  {
    JoinTerminated(pieces);
    var all := pieces + [""];
    forall p | p in all ensures NoBreak(p) {}
    SplitInvertsJoin(all, '\n');
    assert all[..|all| - 1] == pieces;
  }

  lemma OneLineStays(s: string)
    requires OneLine(s)
    ensures NoBreak(s) && Chomp(s) == s
    ensures NoBreak(s + "\r") && Chomp(s + "\r") == s
  {
    if s != "" { assert s[|s| - 1] in s; }
    assert (s + "\r")[..|s|] == s;
  }

  lemma SameLines(lines: seq<string>, pieces: seq<string>, parts: seq<string>)
    requires |lines| == |pieces| == |parts|
    requires forall i :: 0 <= i < |parts| ==> lines[i] == Chomp(pieces[i]) && Chomp(pieces[i]) == parts[i]
    ensures lines == parts
  {
  }

  lemma TerminatedLines(parts: seq<string>)
    requires parts != [] && forall i :: 0 <= i < |parts| ==> OneLine(parts[i])
    ensures Lines(Join(parts, '\n') + "\n") == parts
  {
    forall i | 0 <= i < |parts| ensures NoBreak(parts[i]) && Chomp(parts[i]) == parts[i] { OneLineStays(parts[i]); }
    TerminatedPieces(parts);
    SameLines(Lines(Join(parts, '\n') + "\n"), parts, parts);
  }

  lemma CrLfLines(parts: seq<string>)
    requires parts != [] && forall i :: 0 <= i < |parts| ==> OneLine(parts[i])
    ensures Lines(Join(WithCr(parts), '\n') + "\n") == parts
  {
    forall i | 0 <= i < |parts| ensures NoBreak(WithCr(parts)[i]) && Chomp(WithCr(parts)[i]) == parts[i] {
      OneLineStays(parts[i]);
    }
    TerminatedPieces(WithCr(parts));
    SameLines(Lines(Join(WithCr(parts), '\n') + "\n"), WithCr(parts), parts);
  }

  /** The last line need not be ended. */
  lemma UnterminatedLines(parts: seq<string>)
    requires parts != [] && parts[|parts| - 1] != "" && forall i :: 0 <= i < |parts| ==> OneLine(parts[i])
    ensures Lines(Join(parts, '\n')) == parts
  {
    forall i | 0 <= i < |parts| ensures NoBreak(parts[i]) && Chomp(parts[i]) == parts[i] { OneLineStays(parts[i]); }
    SplitInvertsJoin(parts, '\n');
  }

  lemma ExportIsOneLine(item: Item)
    requires O.Export(item.0, item.1).Ok?
    ensures OneLine(ExportLine(item)) && ExportLine(item) != ""
  {
    O.ExportAlphabet(item.0, item.1);
    O.ExportIsUntrimmable(item.0, item.1);
  }

  /** Importing the file of an export gives back every secret, in order, in export form and titled by its issuer,
      exactly
      when the file and the list fit the caps. */
  lemma ExportedFileImports(env: Env, policy: P.PolicyContext, parser: O.UrlParser, decoder: B32.Decoder,
                            items: seq<Item>)
    requires O.Faithful(parser) && policy.AllowExposure() && env == Program(policy, parser, decoder, env.hash, env.ids)
    requires env.CollisionFree() && items != [] && forall i :: 0 <= i < |items| ==> Exportable(decoder, items[i])
    requires forall i, j :: 0 <= i < j < |items| ==> Triple(Imported(items[i])) != Triple(Imported(items[j]))
    ensures var file := Utf8(Join(ExportLines(items), '\n'));
            var r := Quarantined(policy, env, OtpAuthTotpUriList, file);
            && (r.Ok? <==>
                  |file| <= 16 * 1024 * 1024 && |items| <= 100_000 && TextTotal(AllImported(items)) <= 2 * 1024 * 1024)
            && (r.Ok? ==> |r.value| == |items|
                          && forall i :: 0 <= i < |items| ==> r.value[i] == EntryFrom(env, i, Imported(items[i])))
  {
    var lines := ExportLines(items);
    forall i | 0 <= i < |lines| ensures OneLine(lines[i]) && lines[i] != "" {
      assert Exportable(decoder, items[i]);
      ExportIsOneLine(items[i]);
    }
    LinesReadBack(lines);
    Utf8RoundTrip(Join(lines, '\n'));
    NonemptyJoin(lines);
    FileOfLines(policy, env, lines);
    ExportedListImports(env, policy, parser, decoder, items);
    ProgramIsSound(policy, parser, decoder, env.hash, env.ids);
    if Fold(env, lines).Ok? { LoopOutputIsNeverRejected(env, lines); }
  }

  lemma NonemptyJoin(lines: seq<string>)
    requires lines != [] && lines[0] != ""
    ensures Utf8(Join(lines, '\n')) != []
  {
  }

  /** A file that decodes to these lines is imported as they are. */
  lemma FileOfLines(policy: P.PolicyContext, env: Env, lines: seq<string>)
    requires policy.AllowExposure() && lines != [] && lines[0] != "" && Lines(Join(lines, '\n')) == lines
    ensures var file := Utf8(Join(lines, '\n'));
            Quarantined(policy, env, OtpAuthTotpUriList, file) ==
              if |file| > 16 * 1024 * 1024 then Err(PayloadTooLarge) else Validated(Fold(env, lines))
  {
    Utf8RoundTrip(Join(lines, '\n'));
    NonemptyJoin(lines);
  }

  /** What a whole import is refused for before its lines are read. */
  lemma QuarantineRefusals(policy: P.PolicyContext, env: Env, format: Format, input: bytes)
    ensures policy.outcome.Decoy? || !policy.runtime.NotDebugged? ==>
              Quarantined(policy, env, format, input) == Err(ImportError.PolicyDenied)
    ensures policy.AllowExposure() && (input == [] || |input| > 16 * 1024 * 1024) ==>
              Quarantined(policy, env, format, input) == Err(PayloadTooLarge)
    ensures policy.AllowExposure() && 0 < |input| <= 16 * 1024 * 1024
            && (format.Other? || DecodeUtf8(input).None?) ==>
              Quarantined(policy, env, format, input) == Err(InvalidFormat)
  {
  }

  /** A line is readable exactly when it is short, and blank or a URI whose secret has an export form that decodes
      strictly; its record then carries that form. */
  lemma ReadableMeans(env: Env, policy: P.PolicyContext, parser: O.UrlParser, decoder: B32.Decoder, line: string)
    requires env == Program(policy, parser, decoder, env.hash, env.ids)
    ensures var uri, parsed := Trim(line), O.Parse(policy, parser, Trim(line));
            var form := B32.Canonicalize(if parsed.Ok? then parsed.value.1.secretB32 else "");
            && (Readable(env, line) <==>
                  && Utf8Len(line) <= 8192
                  && (uri == "" || (Utf8Len(uri) <= 4096 && parsed.Ok? && form.Ok?
                                    && B32.DecodeStrict(decoder, form.value).Ok?)))
            && (Readable(env, line) && uri != "" ==>
                  RecordAt(env, line) == Some((parsed.value.0, parsed.value.1.(secretB32 := form.value))))
            && (Readable(env, line) && uri == "" ==> RecordAt(env, line) == None)
  {
    assert env.parse(Trim(line)) == O.Parse(policy, parser, Trim(line));
  }

  /** Why a pass of the loop refuses its line. */
  lemma PassRefusals(env: Env, st: State, idx: nat, line: string)
    requires env.Sound() && st.agg <= MAX_INTEROP_AGG_TEXT_BYTES && Pass(env, st, idx, line).Err?
    ensures var p := ParseLine(env, line);
            var tooMuch := idx >= 100_000 || Utf8Len(line) > 8192
                           || (p.Ok? && p.value.Some? && st.agg + TextBytes(p.value.value) > 2 * 1024 * 1024);
            Pass(env, st, idx, line) == Err(if tooMuch then PayloadTooLarge else InvalidFormat)
  {
    var p := ParseLine(env, line);
    if p.Ok? && p.value.Some? && env.normalize(p.value.value.1).Ok? {
      InsertMeans(env, st.(agg := st.agg + TextBytes(p.value.value)), idx, p.value.value.0,
                  env.normalize(p.value.value.1).value);
    }
  }
}
