/** How a check or a record of a compliance report reads, told from its raw fields alone. */
module RegressionRaw {
  import opened Wrappers
  import opened RegressionReports

  predicate IsSource(s: string) { s == "official" || s == "harness" || s == "supplemental" }

  predicate IsSuiteSource(s: string) { s == "official" || s == "harness" }

  /** How an optional text is written: the empty one as null. */
  function Written(text: string): OptionalText { if text == "" then Null else Text(text) }

  predicate IsNumber(s: string) { s != "" && forall c :: c in s ==> c in "0123456789" }

  /** The name is the stem with an arrival number. */
  ghost predicate Numbered(name: string, stem: string) {
    stem != "" && exists number :: IsNumber(number) && name == stem + "#" + number
  }

  /** The name without its arrival number, if it has one. */
  ghost predicate IsStableName(name: string, stable: string) {
    Numbered(name, stable) || (stable == name && forall stem :: !Numbered(name, stem))
  }

  function StatusText(s: Status): string {
    match s
    case Pass => "PASS"
    case Fail => "FAIL"
    case Skip => "SKIP"
  }

  /** The raw check has this identity and status: a check id, or else the stable name, identifies it, and the
      success flag is false exactly for a failure. */
  ghost predicate RawReads(mode: string, transport: string, raw: Option<RawCheck>, id: Identity, s: Status) {
    && raw.Some? && id.mode == mode && id.transport == transport
    && IsSource(id.source) && raw.value.source == Some(id.source)
    && raw.value.scenario == Written(id.scenario)
    && raw.value.name.Some? && raw.value.name.value != "" && id.checkId != ""
    && (raw.value.checkId == Text(id.checkId)
        || (raw.value.checkId == Null && IsStableName(raw.value.name.value, id.checkId)))
    && raw.value.status == Some(StatusText(s)) && raw.value.success == Some(s != Fail)
  }

  /** Whatever it is, the raw check has an identity and a status. */
  ghost predicate RawValid(raw: Option<RawCheck>) {
    && raw.Some? && raw.value.source.Some? && IsSource(raw.value.source.value)
    && !raw.value.scenario.NotText? && raw.value.scenario != Text("")
    && !raw.value.checkId.NotText? && raw.value.checkId != Text("")
    && raw.value.name.Some? && raw.value.name.value != ""
    && exists s: Status :: raw.value.status == Some(StatusText(s)) && raw.value.success == Some(s != Fail)
  }

  // ----- The reader agrees

  lemma SourcesAgree(s: string)
    ensures KnownSource(s) <==> IsSource(s)
    ensures FromSuite(s) <==> IsSuiteSource(s)
  {
  }

  lemma DigitsAgree(c: char)
    ensures '0' <= c <= '9' <==> c in "0123456789"
  {
    var digits := "0123456789";
    assert digits[0] == '0' && digits[1] == '1' && digits[2] == '2' && digits[3] == '3' && digits[4] == '4';
    assert digits[5] == '5' && digits[6] == '6' && digits[7] == '7' && digits[8] == '8' && digits[9] == '9';
  }

  lemma NumbersAgree(s: string)
    ensures IsDecimal(s) <==> IsNumber(s)
  {
    forall c ensures '0' <= c <= '9' <==> c in "0123456789" { DigitsAgree(c); }
    if IsNumber(s) {
      forall i | 0 <= i < |s| ensures '0' <= s[i] <= '9' { assert s[i] in s; }
    }
  }

  lemma NumberedIsStable(name: string, stem: string)
    requires Numbered(name, stem)
    ensures StableName(name) == stem
  {
    var number :| IsNumber(number) && name == stem + "#" + number;
    NumbersAgree(number);
    StableNameDropsArrivalNumber(stem, number);
  }

  lemma StableNameIff(name: string, stable: string)
    ensures StableName(name) == stable <==> IsStableName(name, stable)
  {
    var at := LastHash(name);
    if at > 0 && IsDecimal(name[at+1..]) {
      NumbersAgree(name[at+1..]);
      assert name == name[..at] + "#" + name[at+1..];
      assert Numbered(name, name[..at]);
    }
    forall stem | Numbered(name, stem) ensures StableName(name) == stem { NumberedIsStable(name, stem); }
    forall number ensures name != name + "#" + number { assert |name + "#" + number| > |name|; }
  }

  lemma StatusTextsDiffer()
    ensures "PASS" != "FAIL" && "PASS" != "SKIP" && "FAIL" != "SKIP"
  {
    assert "PASS"[0] == 'P' && "FAIL"[0] == 'F' && "SKIP"[0] == 'S';
  }

  lemma StatusIff(text: Option<string>, s: Status)
    ensures ParseStatus(text) == Some(s) <==> text == Some(StatusText(s))
  {
    StatusTextsDiffer();
  }

  lemma IdentityIff(mode: string, transport: string, check: RawCheck, id: Identity)
    ensures CheckIdentity(mode, transport, check) == Some(id) <==>
      && id.mode == mode && id.transport == transport && IsSource(id.source) && check.source == Some(id.source)
      && check.scenario == Written(id.scenario) && check.name.Some? && check.name.value != "" && id.checkId != ""
      && (check.checkId == Text(id.checkId) || (check.checkId == Null && IsStableName(check.name.value, id.checkId)))
  {
    SourcesAgree(id.source);
    if check.source.Some? { SourcesAgree(check.source.value); }
    if check.name.Some? { StableNameIff(check.name.value, id.checkId); }
  }

  /** A raw check reads as an identity and a status exactly when its fields say so. */
  lemma ReadCheckIff(mode: string, transport: string, raw: Option<RawCheck>, id: Identity, s: Status)
    ensures ReadCheck(mode, transport, raw) == Some((id, s)) <==> RawReads(mode, transport, raw, id, s)
  {
    if raw.Some? {
      IdentityIff(mode, transport, raw.value, id);
      StatusIff(raw.value.status, s);
    }
  }

  lemma RawValidIff(mode: string, transport: string, raw: Option<RawCheck>)
    ensures ReadCheck(mode, transport, raw).Some? <==> RawValid(raw)
  {
    if raw.Some? {
      if raw.value.source.Some? { SourcesAgree(raw.value.source.value); }
      forall s ensures ParseStatus(raw.value.status) == Some(s) <==> raw.value.status == Some(StatusText(s)) {
        StatusIff(raw.value.status, s);
      }
    }
  }

  // ----- Records

  /** The record of an identity. */
  function RecordOf(id: Identity): Option<RawRecord> {
    Some(RawRecord(Some(id.mode), Some(id.transport), Some(id.source), Some(id.scenario), Some(id.checkId)))
  }

  predicate Recordable(id: Identity) {
    id.mode in MODES && id.transport in TRANSPORTS && IsSource(id.source) && id.checkId != ""
  }

  /** A record reads as an identity exactly when it is the record of that identity. */
  lemma ReadRecordIff(raw: Option<RawRecord>, id: Identity)
    ensures ReadRecord(raw) == Some(id) <==> Recordable(id) && raw == RecordOf(id)
  {
    SourcesAgree(id.source);
    if raw.Some? && raw.value.source.Some? { SourcesAgree(raw.value.source.value); }
  }
}
