/** Vault entries: validators, constructors and granular updates. */
module Entries {
  import opened Common
  import opened Text

  datatype EntryError =
    | EmptyField
    | FieldTooLarge
    | ForbiddenChars
    | SuspiciousUnicode
    | VaultLocked
    | EntryNotFound
    | DuplicateEntry
    | ReauthRequired
    | PolicyDenied
    | InvalidType

  type Checked = Result<(), EntryError>

  // --- Field validators ---

  const MAX_TITLE_LEN: nat := 256
  const MAX_USERNAME_LEN: nat := 320
  const MAX_NOTE_LEN: nat := 8 * 1024
  const MAX_PASSWORD_LEN: nat := 1024

  function Bounded(s: string, max: nat): Checked {
    if s == "" then Err(EmptyField) else if Utf8Len(s) > max then Err(FieldTooLarge) else Ok(())
  }

  predicate IsControl(c: char) { c as int < 0x20 || 0x7F <= c as int < 0xA0 }

  predicate IsDeceptive(c: char) {
    var u := c as int;
    || 0x202A <= u <= 0x202E || 0x2066 <= u <= 0x2069 || u == 0x200E || u == 0x200F || u == 0x061C
    || 0x200B <= u <= 0x200D || u == 0xFEFF
  }

  function NoControls(s: string): Checked {
    if exists c :: c in s && IsControl(c) then Err(ForbiddenChars)
    else if exists c :: c in s && IsDeceptive(c) then Err(SuspiciousUnicode)
    else Ok(())
  }

  function Both(first: Checked, second: Checked): Checked { if first.Err? then first else second }

  function ValidateTitle(s: string): Checked { Both(Bounded(s, MAX_TITLE_LEN), NoControls(s)) }

  function ValidateNote(s: string): Checked { Both(Bounded(s, MAX_NOTE_LEN), NoControls(s)) }

  function ValidateUsername(s: string): Checked { Both(Bounded(s, MAX_USERNAME_LEN), NoControls(s)) }

  function ValidatePassword(s: string): Checked { Bounded(s, MAX_PASSWORD_LEN) }

  function IfPresent(check: string -> Checked, s: Option<string>): Checked {
    if s.Some? then check(s.value) else Ok(())
  }

  // --- Data model ---

  type Id = nat

  datatype EntryType = Password | SecureNote | Card | Totp

  datatype TotpAlgorithm = Sha1 | Sha256 | Sha512

  predicate IsBase32(c: char) { 'A' <= c <= 'Z' || '2' <= c <= '7' || c == '=' }

  datatype TotpSecret = TotpSecret(issuer: Option<string>, accountName: Option<string>, secretB32: string,
                                   digits: u8, periodSecs: u32, algorithm: TotpAlgorithm)
  {
    function Validate(): Checked {
      if !(6 <= digits <= 8) then Err(InvalidType)
      else if periodSecs < 10 || periodSecs > 120 then Err(InvalidType)
      else if secretB32 == "" then Err(EmptyField)
      else if Utf8Len(secretB32) > 1024 then Err(FieldTooLarge)
      else if !IsAscii(secretB32) then Err(SuspiciousUnicode)
      else if exists c :: c in secretB32 && !IsBase32(c) then Err(ForbiddenChars)
      else Ok(())
    }
  }

  datatype EntryMeta = EntryMeta(id: Id, entryType: EntryType)

  datatype EntrySecret = EntrySecret(title: string, note: Option<string>, username: Option<string>, secret: string,
                                     extra: Option<bytes>, totp: Option<TotpSecret>)

  datatype Entry = Entry(meta: EntryMeta, secret: EntrySecret) {
    function ValidateInvariants(): Checked {
      if meta.entryType.Totp? then
        (if secret.totp.None? then Err(InvalidType) else secret.totp.value.Validate())
      else if secret.totp.Some? then Err(InvalidType) else Ok(())
    }

    /** What deserialization demands of an entry. */
    predicate Invariant() { ValidateInvariants().Ok? }
  }

  datatype EntryUpdate =
    | SetTitle(newTitle: string)
    | SetNote(newNote: Option<string>)
    | SetUsername(newUsername: Option<string>)
    | SetSecret(newSecret: string)
    | SetExtra(newExtra: Option<bytes>)
    | SetTotp(newTotp: Option<TotpSecret>)
    | Replace(title: Option<string>, note: Option<Option<string>>, username: Option<Option<string>>,
              secret: Option<string>, extra: Option<Option<bytes>>, totp: Option<Option<TotpSecret>>)

  // --- Constructors; `id` is the fresh identifier ---

  function NewEntry(id: Id, kind: EntryType, checks: Checked, secret: EntrySecret): Result<Entry, EntryError> {
    if checks.Err? then Err(checks.error)
    else
      var e := Entry(EntryMeta(id, kind), secret);
      if e.Invariant() then Ok(e) else Err(e.ValidateInvariants().error)
  }

  function NewPassword(id: Id, title: string, username: Option<string>, password: string, note: Option<string>)
    : Result<Entry, EntryError>
  {
    NewEntry(id, Password,
             Both(ValidateTitle(title), Both(IfPresent(ValidateNote, note),
                  Both(IfPresent(ValidateUsername, username), ValidatePassword(password)))),
             EntrySecret(title, note, username, password, None, None))
  }

  function NewSecureNote(id: Id, title: string, note: string): Result<Entry, EntryError> {
    NewEntry(id, SecureNote, Both(ValidateTitle(title), ValidateNote(note)),
             EntrySecret(title, Some(note), None, note, None, None))
  }

  function NewTotp(id: Id, title: string, totp: TotpSecret, note: Option<string>): Result<Entry, EntryError> {
    NewEntry(id, Totp, Both(ValidateTitle(title), Both(IfPresent(ValidateNote, note), totp.Validate())),
             EntrySecret(title, note, None, totp.secretB32, None, Some(totp)))
  }

  // --- Updates ---

  /** The entry an update leaves behind, also when it fails, and its result. */
  type Outcome = (Entry, Checked)

  function With(e: Entry, s: EntrySecret): Entry { e.(secret := s) }

  /** The mutation of one update, before the final invariant check. */
  function Mutated(e: Entry, u: EntryUpdate): Outcome
    decreases if u.Replace? then 1 else 0, 1
  {
    var s := e.secret;
    match u
    case SetTitle(t) => if ValidateTitle(t).Err? then (e, ValidateTitle(t)) else (With(e, s.(title := t)), Ok(()))
    case SetNote(n) =>
      if IfPresent(ValidateNote, n).Err? then (e, IfPresent(ValidateNote, n)) else (With(e, s.(note := n)), Ok(()))
    case SetUsername(n) =>
      if IfPresent(ValidateUsername, n).Err? then (e, IfPresent(ValidateUsername, n))
      else (With(e, s.(username := n)), Ok(()))
    case SetSecret(x) =>
      (match e.meta.entryType
       case Password =>
         if ValidatePassword(x).Err? then (e, ValidatePassword(x)) else (With(e, s.(secret := x)), Ok(()))
       case Totp =>
         if s.totp.None? then (e, Err(InvalidType))
         else
           var t := s.totp.value.(secretB32 := x);
           if t.Validate().Err? then (With(e, s.(totp := Some(t))), t.Validate())
           else (With(e, s.(totp := Some(t), secret := x)), Ok(()))
       case _ => (With(e, s.(secret := x)), Ok(())))
    case SetExtra(x) => (With(e, s.(extra := x)), Ok(()))
    case SetTotp(t) =>
      if !e.meta.entryType.Totp? then (e, Err(InvalidType))
      else if t.Some? && t.value.Validate().Err? then (e, t.value.Validate())
      else (With(e, s.(totp := t, secret := if t.Some? then t.value.secretB32 else s.secret)), Ok(()))
    case Replace(_, _, _, _, _, _) => Inline(e, Steps(u))
  }

  /** The single-field updates a `Replace` stands for, in the order it makes them. */
  function Steps(u: EntryUpdate): (us: seq<EntryUpdate>)
    requires u.Replace?
    ensures forall x :: x in us ==> !x.Replace?
  {
    Step0(u) + (Step1(u) + (Step2(u) + (Step3(u) + (Step4(u) + Step5(u)))))
  }

  function Step0(u: EntryUpdate): seq<EntryUpdate>
    requires u.Replace?
  {
    if u.title.Some? then [SetTitle(u.title.value)] else []
  }

  function Step1(u: EntryUpdate): seq<EntryUpdate>
    requires u.Replace?
  {
    if u.note.Some? then [SetNote(u.note.value)] else []
  }

  function Step2(u: EntryUpdate): seq<EntryUpdate>
    requires u.Replace?
  {
    if u.username.Some? then [SetUsername(u.username.value)] else []
  }

  function Step3(u: EntryUpdate): seq<EntryUpdate>
    requires u.Replace?
  {
    if u.secret.Some? then [SetSecret(u.secret.value)] else []
  }

  function Step4(u: EntryUpdate): seq<EntryUpdate>
    requires u.Replace?
  {
    if u.extra.Some? then [SetExtra(u.extra.value)] else []
  }

  function Step5(u: EntryUpdate): seq<EntryUpdate>
    requires u.Replace?
  {
    if u.totp.Some? then [SetTotp(u.totp.value)] else []
  }

  /** The body of `Replace`: secret and TOTP go through the full update, the other fields are set inline. */
  function Inline(e: Entry, us: seq<EntryUpdate>): Outcome
    requires forall u :: u in us ==> !u.Replace?
    decreases 1, 0, |us|
  {
    if us == [] then (e, Ok(()))
    else
      assert us[0] in us;
      var o := if us[0].SetSecret? || us[0].SetTotp? then Apply(e, us[0]) else Mutated(e, us[0]);
      if o.1.Err? then o else Inline(o.0, us[1..])
  }

  function Apply(e: Entry, u: EntryUpdate): Outcome
    decreases if u.Replace? then 1 else 0, 2
  {
    var o := Mutated(e, u);
    if o.1.Err? then o else (o.0, o.0.ValidateInvariants())
  }

  /** An entry object whose fields updates overwrite in place. */
  class VaultEntry {
    const meta: EntryMeta
    var secret: EntrySecret

    constructor (e: Entry)
      ensures Value() == e
    {
      meta := e.meta;
      secret := e.secret;
    }

    function Value(): Entry
      reads this
    {
      Entry(meta, secret)
    }

    method SetSecretField(x: string) returns (r: Checked)
      modifies this
      ensures (Value(), r) == Mutated(old(Value()), SetSecret(x))
    {
      if meta.entryType == Password {
        var ok := ValidatePassword(x);
        if ok.Err? { return ok; }
        secret := secret.(secret := x);
      } else if meta.entryType == Totp {
        if secret.totp.None? { return Err(InvalidType); }
        var t := secret.totp.value.(secretB32 := x);
        secret := secret.(totp := Some(t));
        var ok := t.Validate();
        if ok.Err? { return ok; }
        secret := secret.(secret := x);
      } else {
        secret := secret.(secret := x);
      }
      return Ok(());
    }

    method SetTotpField(t: Option<TotpSecret>) returns (r: Checked)
      modifies this
      ensures (Value(), r) == Mutated(old(Value()), SetTotp(t))
    {
      if meta.entryType != Totp { return Err(InvalidType); }
      if t.Some? {
        var ok := t.value.Validate();
        if ok.Err? { return ok; }
        secret := secret.(secret := t.value.secretB32);
      }
      secret := secret.(totp := t);
      return Ok(());
    }

    method ApplyUpdate(u: EntryUpdate) returns (r: Checked)
      modifies this
      ensures (Value(), r) == Apply(old(Value()), u)
      decreases if u.Replace? then 1 else 0, 1
    {
      match u {
        case SetTitle(t) =>
          var ok := ValidateTitle(t);
          if ok.Err? { return ok; }
          secret := secret.(title := t);
        case SetNote(n) =>
          var ok := IfPresent(ValidateNote, n);
          if ok.Err? { return ok; }
          secret := secret.(note := n);
        case SetUsername(n) =>
          var ok := IfPresent(ValidateUsername, n);
          if ok.Err? { return ok; }
          secret := secret.(username := n);
        case SetSecret(x) =>
          var ok := SetSecretField(x);
          if ok.Err? { return ok; }
        case SetExtra(x) =>
          secret := secret.(extra := x);
        case SetTotp(t) =>
          var ok := SetTotpField(t);
          if ok.Err? { return ok; }
        case Replace(_, _, _, _, _, _) =>
          var ok := ReplaceFields(u);
          if ok.Err? { return ok; }
      }
      r := Value().ValidateInvariants();
    }

    method ReplaceFields(u: EntryUpdate) returns (r: Checked)
      requires u.Replace?
      modifies this
      ensures (Value(), r) == Inline(old(Value()), Steps(u))
      decreases 1, 0
    {
      var text := ReplaceText(u);
      if text.Err? { return text; }
      InlineOptional(Value(), Step3(u), Step4(u) + Step5(u));
      if u.secret.Some? {
        var ok := ApplyUpdate(SetSecret(u.secret.value));
        if ok.Err? { return ok; }
      }
      InlineOptional(Value(), Step4(u), Step5(u));
      if u.extra.Some? { secret := secret.(extra := u.extra.value); }
      InlineOptional(Value(), Step5(u), []);
      assert Step5(u) + [] == Step5(u);
      if u.totp.Some? {
        var ok := ApplyUpdate(SetTotp(u.totp.value));
        if ok.Err? { return ok; }
      }
      return Ok(());
    }

    /** The first three fields of a `Replace`; what is left to do is the same as before. */
    method ReplaceText(u: EntryUpdate) returns (r: Checked)
      requires u.Replace?
      modifies this
      ensures r.Ok? ==> Inline(Value(), Step3(u) + (Step4(u) + Step5(u))) == Inline(old(Value()), Steps(u))
      ensures r.Err? ==> (Value(), r) == Inline(old(Value()), Steps(u))
    {
      InlineOptional(Value(), Step0(u), Step1(u) + (Step2(u) + (Step3(u) + (Step4(u) + Step5(u)))));
      if u.title.Some? {
        var ok := ValidateTitle(u.title.value);
        if ok.Err? { return ok; }
        secret := secret.(title := u.title.value);
      }
      InlineOptional(Value(), Step1(u), Step2(u) + (Step3(u) + (Step4(u) + Step5(u))));
      if u.note.Some? {
        var ok := IfPresent(ValidateNote, u.note.value);
        if ok.Err? { return ok; }
        secret := secret.(note := u.note.value);
      }
      InlineOptional(Value(), Step2(u), Step3(u) + (Step4(u) + Step5(u)));
      if u.username.Some? {
        var ok := IfPresent(ValidateUsername, u.username.value);
        if ok.Err? { return ok; }
        secret := secret.(username := u.username.value);
      }
      return Ok(());
    }
  }

  /** A field that is not given changes nothing; one that is given goes first. */
  lemma InlineOptional(e: Entry, first: seq<EntryUpdate>, rest: seq<EntryUpdate>)
    requires |first| <= 1 && (forall u :: u in first ==> !u.Replace?) && forall u :: u in rest ==> !u.Replace?
    ensures Inline(e, first + rest) ==
              if first == [] then Inline(e, rest)
              else
                var o := if first[0].SetSecret? || first[0].SetTotp? then Apply(e, first[0]) else Mutated(e, first[0]);
                if o.1.Err? then o else Inline(o.0, rest)
  {
    if first == [] {
      assert first + rest == rest;
    } else {
      assert (first + rest)[1..] == rest;
    }
  }

  // ------------------------------------------------------------------------------------------
  // Replace is the ordered composition of the single-field updates
  // ------------------------------------------------------------------------------------------

  /** Apply updates one after another, stopping at the first error. */
  function RunUpdates(e: Entry, us: seq<EntryUpdate>): Outcome
    decreases us
  {
    if us == [] then (e, Ok(()))
    else
      var o := Apply(e, us[0]);
      if o.1.Err? then o else RunUpdates(o.0, us[1..])
  }

  /** A field update that cannot touch the TOTP block never fails the invariant check. */
  lemma PlainUpdatesKeepInvariant(e: Entry, u: EntryUpdate)
    requires e.Invariant() && (u.SetTitle? || u.SetNote? || u.SetUsername? || u.SetExtra?)
    ensures Apply(e, u) == Mutated(e, u) && Apply(e, u).0.Invariant()
  {
  }

  lemma {:induction false} InlineIsComposition(e: Entry, us: seq<EntryUpdate>)
    requires e.Invariant() && forall u :: u in us ==> !u.Replace?
    ensures Inline(e, us) == RunUpdates(e, us)
    ensures Inline(e, us).1.Ok? ==> Inline(e, us).0.Invariant()
    decreases us
  {
    if us != [] {
      assert us[0] in us;
      if !us[0].SetSecret? && !us[0].SetTotp? { PlainUpdatesKeepInvariant(e, us[0]); }
      if Apply(e, us[0]).1.Ok? { InlineIsComposition(Apply(e, us[0]).0, us[1..]); }
    }
  }

  /** `Replace` and the composition agree in the result and in the entry left behind. */
  lemma ReplaceIsComposition(e: Entry, u: EntryUpdate)
    requires u.Replace? && e.Invariant()
    ensures Apply(e, u) == RunUpdates(e, Steps(u))
  {
    InlineIsComposition(e, Steps(u));
    var o := Inline(e, Steps(u));
    if o.1.Ok? { assert o.1.value == (); }
  }

  // ------------------------------------------------------------------------------------------
  // What updates keep, and what a failed update leaves behind
  // ------------------------------------------------------------------------------------------

  /** Every promise the constructors make about an entry. */
  predicate Good(e: Entry) {
    && e.Invariant()
    && ValidateTitle(e.secret.title).Ok?
    && IfPresent(ValidateNote, e.secret.note).Ok?
    && IfPresent(ValidateUsername, e.secret.username).Ok?
    && (e.meta.entryType.Password? ==> ValidatePassword(e.secret.secret).Ok?)
    && (e.meta.entryType.Totp? ==> e.secret.secret == e.secret.totp.value.secretB32)
  }

  lemma ConstructorsAreGood(id: Id, title: string, username: Option<string>, secret: string, note: Option<string>,
                            text: string, totp: TotpSecret)
    ensures var e := NewPassword(id, title, username, secret, note); e.Ok? ==> Good(e.value)
    ensures var e := NewSecureNote(id, title, text); e.Ok? ==> Good(e.value)
    ensures var e := NewTotp(id, title, totp, note); e.Ok? ==> Good(e.value)
    ensures NewTotp(id, title, totp, note).Ok? <==>
              ValidateTitle(title).Ok? && IfPresent(ValidateNote, note).Ok? && totp.Validate().Ok?
  {
  }

  // ------------------------------------------------------------------------------------------
  // What valid means, and what constructors and updates write
  // ------------------------------------------------------------------------------------------

  predicate HasControl(s: string) { exists c :: c in s && (c as int <= 0x1F || 0x7F <= c as int <= 0x9F) }

  /** A bidirectional control, a zero-width character or a byte order mark. */
  predicate HasInvisible(s: string) {
    exists c :: c in s && (0x202A <= c as int <= 0x202E || 0x2066 <= c as int <= 0x2069 || 0x200B <= c as int <= 0x200F
                           || c as int == 0x061C || c as int == 0xFEFF)
  }

  /** The first reason a display text of at most `max` bytes is refused. */
  function TextError(s: string, max: nat): Option<EntryError> {
    if s == "" then Some(EmptyField)
    else if Utf8Len(s) > max then Some(FieldTooLarge)
    else if HasControl(s) then Some(ForbiddenChars)
    else if HasInvisible(s) then Some(SuspiciousUnicode)
    else None
  }

  function ErrorOf(r: Checked): Option<EntryError> { if r.Ok? then None else Some(r.error) }

  /** Titles take up to 256 bytes, usernames 320, notes 8192, without control and invisible characters; passwords take
      any text of up to 1024 bytes. */
  lemma ValidTexts(s: string)
    ensures ErrorOf(ValidateTitle(s)) == TextError(s, 256)
    ensures ErrorOf(ValidateUsername(s)) == TextError(s, 320)
    ensures ErrorOf(ValidateNote(s)) == TextError(s, 8192)
    ensures ErrorOf(ValidatePassword(s)) ==
              if s == "" then Some(EmptyField) else if Utf8Len(s) > 1024 then Some(FieldTooLarge) else None
  {
    assert HasControl(s) <==> exists c :: c in s && IsControl(c);
    assert HasInvisible(s) <==> exists c :: c in s && IsDeceptive(c);
  }

  /** A TOTP block has 6 to 8 digits, a period of 10 to 120 seconds and up to 1024 characters of padded base32. */
  lemma ValidTotp(t: TotpSecret)
    ensures t.Validate().Ok? <==>
              && 6 <= t.digits <= 8 && 10 <= t.periodSecs <= 120
              && t.secretB32 != "" && Utf8Len(t.secretB32) <= 1024
              && forall c :: c in t.secretB32 ==> 'A' <= c <= 'Z' || '2' <= c <= '7' || c == '='
    ensures t.Validate() == Err(InvalidType) <==> !(6 <= t.digits <= 8 && 10 <= t.periodSecs <= 120)
  {
    if forall c :: c in t.secretB32 ==> 'A' <= c <= 'Z' || '2' <= c <= '7' || c == '=' {
      forall c | c in t.secretB32 ensures c as int < 0x80 && IsBase32(c) {}
    }
  }

  /** Constructors store exactly what they are given, a note or TOTP secret also as the primary secret. */
  lemma ConstructorsStore(id: Id, title: string, username: Option<string>, password: string, note: Option<string>,
                          text: string, totp: TotpSecret)
    ensures var e := NewPassword(id, title, username, password, note);
            && (e.Ok? <==>
                  && ValidateTitle(title).Ok? && IfPresent(ValidateNote, note).Ok?
                  && IfPresent(ValidateUsername, username).Ok? && ValidatePassword(password).Ok?)
            && (e.Ok? ==>
                  && e.value.meta.id == id && e.value.meta.entryType.Password?
                  && e.value.secret.title == title && e.value.secret.note == note
                  && e.value.secret.username == username && e.value.secret.secret == password
                  && e.value.secret.extra == None && e.value.secret.totp == None)
    ensures var e := NewSecureNote(id, title, text);
            && (e.Ok? <==> ValidateTitle(title).Ok? && ValidateNote(text).Ok?)
            && (e.Ok? ==>
                  && e.value.meta.id == id && e.value.meta.entryType.SecureNote?
                  && e.value.secret.title == title && e.value.secret.note == Some(text)
                  && e.value.secret.username == None && e.value.secret.secret == text
                  && e.value.secret.extra == None && e.value.secret.totp == None)
    ensures var e := NewTotp(id, title, totp, note);
            && (e.Ok? ==>
                  && e.value.meta.id == id && e.value.meta.entryType.Totp?
                  && e.value.secret.title == title && e.value.secret.note == note
                  && e.value.secret.username == None && e.value.secret.secret == totp.secretB32
                  && e.value.secret.extra == None && e.value.secret.totp == Some(totp))
  {
  }

  /** Field by field, what a successful single update writes, and that it writes nothing else. */
  lemma UpdateWrites(e: Entry, u: EntryUpdate)
    requires !u.Replace? && e.Invariant() && Apply(e, u).1.Ok?
    ensures var was, now := e.secret, Apply(e, u).0.secret;
            var kind := e.meta.entryType;
            && Apply(e, u).0.meta == e.meta
            && now.title == (if u.SetTitle? then u.newTitle else was.title)
            && now.note == (if u.SetNote? then u.newNote else was.note)
            && now.username == (if u.SetUsername? then u.newUsername else was.username)
            && now.extra == (if u.SetExtra? then u.newExtra else was.extra)
            && (u.SetSecret? ==> now.secret == u.newSecret)
            && (u.SetSecret? && kind.Totp? ==> now.totp == Some(was.totp.value.(secretB32 := u.newSecret)))
            && (u.SetSecret? && !kind.Totp? ==> now.totp == was.totp)
            && (u.SetTotp? ==> kind.Totp? && u.newTotp.Some? && now.totp == u.newTotp
                               && now.secret == u.newTotp.value.secretB32)
            && (!u.SetSecret? && !u.SetTotp? ==> now.secret == was.secret && now.totp == was.totp)
  {
  }

  /** What a single update answers: the validator's verdict on the new value; TOTP blocks go to TOTP entries only, which
      must keep one. */
  lemma UpdateAnswers(e: Entry, u: EntryUpdate)
    requires !u.Replace? && e.Invariant()
    ensures ErrorOf(Apply(e, u).1) ==
              match u
              case SetTitle(t) => ErrorOf(ValidateTitle(t))
              case SetNote(n) => if n.Some? then ErrorOf(ValidateNote(n.value)) else None
              case SetUsername(n) => if n.Some? then ErrorOf(ValidateUsername(n.value)) else None
              case SetSecret(x) =>
                if e.meta.entryType.Password? then ErrorOf(ValidatePassword(x))
                else if e.meta.entryType.Totp? then ErrorOf(e.secret.totp.value.(secretB32 := x).Validate())
                else None
              case SetTotp(t) =>
                if !e.meta.entryType.Totp? || t.None? then Some(InvalidType) else ErrorOf(t.value.Validate())
              case _ => None
  {
  }

  function Given<T>(field: Option<T>, was: T): T { if field.Some? then field.value else was }

  /** The entry with the text fields of a `Replace` written. */
  function TextWritten(e: Entry, u: EntryUpdate): Entry
    requires u.Replace?
  {
    With(e, e.secret.(title := Given(u.title, e.secret.title), note := Given(u.note, e.secret.note),
                      username := Given(u.username, e.secret.username)))
  }

  lemma ReplaceWritesText(e: Entry, u: EntryUpdate)
    requires u.Replace? && Inline(e, Steps(u)).1.Ok?
    ensures Inline(e, Steps(u)) == Inline(TextWritten(e, u), Step3(u) + (Step4(u) + Step5(u)))
  {
    var e1 := With(e, e.secret.(title := Given(u.title, e.secret.title)));
    var e2 := With(e1, e1.secret.(note := Given(u.note, e1.secret.note)));
    InlineOptional(e, Step0(u), Step1(u) + (Step2(u) + (Step3(u) + (Step4(u) + Step5(u)))));
    InlineOptional(e1, Step1(u), Step2(u) + (Step3(u) + (Step4(u) + Step5(u))));
    InlineOptional(e2, Step2(u), Step3(u) + (Step4(u) + Step5(u)));
  }

  lemma ReplaceWritesSecrets(e: Entry, u: EntryUpdate)
    requires u.Replace? && e.Invariant() && Inline(e, Step3(u) + (Step4(u) + Step5(u))).1.Ok?
    ensures var was, now := e.secret, Inline(e, Step3(u) + (Step4(u) + Step5(u))).0.secret;
            && now.title == was.title && now.note == was.note && now.username == was.username
            && now.extra == Given(u.extra, was.extra)
            && (u.totp.Some? ==> e.meta.entryType.Totp? && u.totp.value.Some? && now.totp == u.totp.value
                                 && now.secret == u.totp.value.value.secretB32)
            && (u.totp.None? && u.secret.Some? ==>
                  && now.secret == u.secret.value
                  && now.totp == if e.meta.entryType.Totp? then Some(was.totp.value.(secretB32 := u.secret.value))
                    else None)
            && (u.totp.None? && u.secret.None? ==> now.secret == was.secret && now.totp == was.totp)
  {
    InlineOptional(e, Step3(u), Step4(u) + Step5(u));
    var e3 := if u.secret.Some? then Apply(e, SetSecret(u.secret.value)).0 else e;
    if u.secret.Some? { UpdateWrites(e, SetSecret(u.secret.value)); }
    InlineOptional(e3, Step4(u), Step5(u));
    var e4 := With(e3, e3.secret.(extra := Given(u.extra, e3.secret.extra)));
    InlineOptional(e4, Step5(u), []);
    assert Step5(u) + [] == Step5(u);
    if u.totp.Some? { UpdateWrites(e4, SetTotp(u.totp.value)); }
  }

  /** Field by field, what a successful `Replace` writes: each given field has its value, absent fields stay, and where
      secret and TOTP block meet the block, written last, decides. */
  lemma ReplaceWrites(e: Entry, u: EntryUpdate)
    requires u.Replace? && e.Invariant() && Apply(e, u).1.Ok?
    ensures var was, now := e.secret, Apply(e, u).0.secret;
            && Apply(e, u).0.meta == e.meta
            && now.title == Given(u.title, was.title) && now.note == Given(u.note, was.note)
            && now.username == Given(u.username, was.username) && now.extra == Given(u.extra, was.extra)
            && (u.totp.Some? ==> e.meta.entryType.Totp? && u.totp.value.Some? && now.totp == u.totp.value
                                 && now.secret == u.totp.value.value.secretB32)
            && (u.totp.None? && u.secret.Some? ==>
                  && now.secret == u.secret.value
                  && now.totp == if e.meta.entryType.Totp? then Some(was.totp.value.(secretB32 := u.secret.value))
                    else None)
            && (u.totp.None? && u.secret.None? ==> now.secret == was.secret && now.totp == was.totp)
  {
    ReplaceWritesText(e, u);
    ReplaceWritesSecrets(TextWritten(e, u), u);
    UpdateStaysReadable(e, u);
  }

  lemma SingleUpdateStaysGood(e: Entry, u: EntryUpdate)
    requires !u.Replace? && Good(e) && Apply(e, u).1.Ok?
    ensures Good(Apply(e, u).0) && Apply(e, u).0.meta == e.meta
  {
  }

  lemma {:induction false} SingleUpdatesStayGood(e: Entry, us: seq<EntryUpdate>)
    requires Good(e) && RunUpdates(e, us).1.Ok? && forall u :: u in us ==> !u.Replace?
    ensures Good(RunUpdates(e, us).0) && RunUpdates(e, us).0.meta == e.meta
    decreases us
  {
    if us != [] {
      SingleUpdateStaysGood(e, us[0]);
      SingleUpdatesStayGood(Apply(e, us[0]).0, us[1..]);
    }
  }

  /** Successful updates of any kind keep identity, type and every constructor promise. */
  lemma {:induction false} SuccessfulUpdatesStayGood(e: Entry, us: seq<EntryUpdate>)
    requires Good(e) && RunUpdates(e, us).1.Ok?
    ensures Good(RunUpdates(e, us).0) && RunUpdates(e, us).0.meta == e.meta
    decreases us
  {
    if us != [] {
      if us[0].Replace? {
        ReplaceIsComposition(e, us[0]);
        SingleUpdatesStayGood(e, Steps(us[0]));
      } else {
        SingleUpdateStaysGood(e, us[0]);
      }
      SuccessfulUpdatesStayGood(Apply(e, us[0]).0, us[1..]);
    }
  }

  /** A failed single-field update changes the entry exactly when it hits the TOTP block of a TOTP entry. */
  lemma FailedUpdateChanges(e: Entry, u: EntryUpdate)
    requires !u.Replace? && e.Invariant() && Apply(e, u).1.Err?
    ensures Apply(e, u).0 != e <==> e.meta.entryType.Totp? && (u.SetSecret? || u == SetTotp(None))
    ensures e.meta.entryType.Totp? && u.SetSecret? ==>
              Apply(e, u).0 == With(e, e.secret.(totp := Some(e.secret.totp.value.(secretB32 := u.newSecret))))
    ensures e.meta.entryType.Totp? && u == SetTotp(None) ==> Apply(e, u).0 == With(e, e.secret.(totp := None))
  {
  }

  /** The update drops or spoils the TOTP block of a TOTP entry. */
  predicate Spoils(e: Entry, u: EntryUpdate)
    requires e.Invariant() && !u.Replace?
  {
    e.meta.entryType.Totp?
    && (u == SetTotp(None)
        || (u.SetSecret? && e.secret.totp.value.(secretB32 := u.newSecret).Validate().Err?))
  }

  /** After any single-field update, failed or not, the entry can be read back unless the update spoils it. */
  lemma EntryStaysReadable(e: Entry, u: EntryUpdate)
    requires e.Invariant() && !u.Replace?
    ensures Apply(e, u).0.Invariant() <==> !Spoils(e, u)
    ensures Spoils(e, u) ==> Apply(e, u).1.Err?
  {
  }

  /** Some step of the composition is reached and spoils the entry. */
  predicate SpoilsWithin(e: Entry, us: seq<EntryUpdate>)
    requires e.Invariant() && forall u :: u in us ==> !u.Replace?
    decreases us
  {
    us != []
    && (Spoils(e, us[0])
        || (assert us[0] in us; EntryStaysReadable(e, us[0]);
            Apply(e, us[0]).1.Ok? && SpoilsWithin(Apply(e, us[0]).0, us[1..])))
  }

  lemma {:induction false} RunStaysReadable(e: Entry, us: seq<EntryUpdate>)
    requires e.Invariant() && forall u :: u in us ==> !u.Replace?
    ensures RunUpdates(e, us).0.Invariant() <==> !SpoilsWithin(e, us)
    ensures SpoilsWithin(e, us) ==> RunUpdates(e, us).1.Err?
    decreases us
  {
    if us != [] {
      assert us[0] in us;
      EntryStaysReadable(e, us[0]);
      if Apply(e, us[0]).1.Ok? { RunStaysReadable(Apply(e, us[0]).0, us[1..]); }
    }
  }

  /** The updates any update amounts to. */
  function AsSteps(u: EntryUpdate): seq<EntryUpdate> { if u.Replace? then Steps(u) else [u] }

  /** An update of any kind leaves an entry that can be read back, unless one of its steps spoils it. */
  lemma UpdateStaysReadable(e: Entry, u: EntryUpdate)
    requires e.Invariant()
    ensures forall x :: x in AsSteps(u) ==> !x.Replace?
    ensures Apply(e, u).0.Invariant() <==> !SpoilsWithin(e, AsSteps(u))
    ensures Apply(e, u).0.meta == e.meta
  {
    if u.Replace? {
      ReplaceIsComposition(e, u);
      RunStaysReadable(e, Steps(u));
      RunKeepsMeta(e, Steps(u));
    } else {
      EntryStaysReadable(e, u);
    }
  }

  lemma {:induction false} RunKeepsMeta(e: Entry, us: seq<EntryUpdate>)
    requires forall u :: u in us ==> !u.Replace?
    ensures RunUpdates(e, us).0.meta == e.meta
    decreases us
  {
    if us != [] {
      assert us[0] in us;
      assert Apply(e, us[0]).0.meta == e.meta;
      RunKeepsMeta(Apply(e, us[0]).0, us[1..]);
    }
  }

  lemma SingleUpdateNeverReportsLocked(e: Entry, u: EntryUpdate)
    requires !u.Replace?
    ensures Apply(e, u).1 != Err(VaultLocked) && Mutated(e, u).1 != Err(VaultLocked)
  {
  }

  lemma {:induction false} InlineNeverReportsLocked(e: Entry, us: seq<EntryUpdate>)
    requires forall u :: u in us ==> !u.Replace?
    ensures Inline(e, us).1 != Err(VaultLocked)
    decreases us
  {
    if us != [] {
      assert us[0] in us;
      var o := if us[0].SetSecret? || us[0].SetTotp? then Apply(e, us[0]) else Mutated(e, us[0]);
      SingleUpdateNeverReportsLocked(e, us[0]);
      if o.1.Ok? { InlineNeverReportsLocked(o.0, us[1..]); }
    }
  }

  lemma UpdatesNeverReportLocked(e: Entry, u: EntryUpdate)
    ensures Apply(e, u).1 != Err(VaultLocked)
  {
    if u.Replace? { InlineNeverReportsLocked(e, Steps(u)); } else { SingleUpdateNeverReportsLocked(e, u); }
  }
}
