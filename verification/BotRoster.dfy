/** The roster line: parsed, admitted against the controller registry, and laid out over the lobby's seats. */
module BotRosters {
  import opened Wrappers
  import opened SeatRosters
  import opened Decimals
  import opened IniText

  const MAXIMUM_ROSTER_ENTRY_COUNT: nat := 16
  const MAXIMUM_BOT_COUNT: nat := 256
  const MAXIMUM_KIND_NAME_LENGTH: nat := 64
  const MAXIMUM_UNSIGNED: nat := 18_446_744_073_709_551_615

  datatype RosterEntry = RosterEntry(kind: string, count: nat, profile: Option<string>)

  datatype RosterError =
    | RosterInvalid | ProfileNameInvalid | KindUnknown | ProfileRequired | ProfileUnexpected | RosterTooLarge
    | BotsExceedSeats

  // ---------------------------------------------------------------- counts

  /** One complete unsigned integer that fits sixty-four bits. */
  function ParseCount(s: string): Result<nat, RosterError> {
    match DecimalValue(s)
    case Some(n) => if s == "" || n > MAXIMUM_UNSIGNED then Failure(RosterInvalid) else Success(n)
    case None => Failure(RosterInvalid)
  }

  // ---------------------------------------------------------------- one term

  predicate IsKindName(s: string) {
    && 0 < |s| <= MAXIMUM_KIND_NAME_LENGTH && 'a' <= s[0] <= 'z'
    && forall i :: 0 <= i < |s| ==> 'a' <= s[i] <= 'z' || IsDigit(s[i]) || s[i] == '_'
  }

  function ParseProfile(declaration: string, at: nat): Result<Option<string>, RosterError>
    requires at <= |declaration|
  {
    if at == |declaration| then Success(None)
    else
      var token := Trim(declaration[at + 1..]);
      if token == "" then Failure(RosterInvalid) else if !IsKindName(token) then Failure(ProfileNameInvalid)
      else Success(Some(token))
  }

  /** One term: a kind, perhaps a profile, and how many. */
  function ParseTerm(raw: string): Result<RosterEntry, RosterError> {
    var term := Trim(raw);
    var colon := IndexOf(term, ':');
    if term == "" || colon == |term| || Has(term[colon + 1..], ':') then Failure(RosterInvalid)
    else
      var declaration := Trim(term[..colon]);
      var at := IndexOf(declaration, '@');
      if at < |declaration| && Has(declaration[at + 1..], '@') then Failure(RosterInvalid)
      else
        var kind := Trim(declaration[..at]);
        var profile :- ParseProfile(declaration, at);
        var countText := Trim(term[colon + 1..]);
        if kind == "" || countText == "" then Failure(RosterInvalid)
        else
          var count :- ParseCount(countText);
          Success(RosterEntry(kind, count, profile))
  }

  predicate SameName(a: RosterEntry, b: RosterEntry) {
    a.kind == b.kind && a.profile == b.profile
  }

  /** What every entry must be, whether it was parsed or handed over: room for it, a kind, a count, and
      not named before. */
  predicate Admitted(preceding: seq<RosterEntry>, entry: RosterEntry) {
    && |preceding| < MAXIMUM_ROSTER_ENTRY_COUNT && entry.kind != "" && entry.count > 0
    && forall i :: 0 <= i < |preceding| ==> !SameName(preceding[i], entry)
  }

  function ParseTerms(entries: seq<RosterEntry>, text: string): Result<seq<RosterEntry>, RosterError>
    decreases |text|
  {
    var delimiter := IndexOf(text, ',');
    var entry :- ParseTerm(text[..delimiter]);
    if !Admitted(entries, entry) then Failure(RosterInvalid)
    else if delimiter == |text| then Success(entries + [entry])
    else ParseTerms(entries + [entry], text[delimiter + 1..])
  }

  function ParseRoster(value: string): Result<seq<RosterEntry>, RosterError> {
    if Trim(value) == "" then Success([]) else ParseTerms([], Trim(value))
  }

  /** The loop over the terms of a roster line. */
  method ParseBotRoster(value: string) returns (r: Result<seq<RosterEntry>, RosterError>)
    ensures r == ParseRoster(value)
  {
    hide ParseTerm;
    var roster := TrimHorizontalWhitespace(value);
    if roster == "" { return Success([]); }
    var entries: seq<RosterEntry> := [];
    var start := 0;
    while start <= |roster|
      invariant start <= |roster| + 1
      invariant start <= |roster| && ParseRoster(value) == ParseTerms(entries, roster[start..])
      decreases |roster| - start
    {
      var rest := roster[start..];
      var delimiter := IndexOf(rest, ',');
      var term := ParseTerm(rest[..delimiter]);
      if term.Failure? { return Failure(term.error); }
      if !Admitted(entries, term.value) { return Failure(RosterInvalid); }
      entries := entries + [term.value];
      if delimiter == |rest| { return Success(entries); }
      assert roster[start + delimiter + 1..] == rest[delimiter + 1..];
      start := start + delimiter + 1;
    }
    assert false;
  }

  // ---------------------------------------------------------------- what a term is

  /** A small letter, and then at most sixty-three more small letters, digits and underscores. */
  lemma KindNameIsExact(s: string)
    ensures IsKindName(s) <==>
      && 1 <= |s| <= 64 && 'a' <= s[0] <= 'z'
      && forall c :: c in s ==> 'a' <= c <= 'z' || '0' <= c <= '9' || c == '_'
  {
    if 1 <= |s| <= 64 && forall c :: c in s ==> 'a' <= c <= 'z' || '0' <= c <= '9' || c == '_' {
      forall i | 0 <= i < |s| ensures 'a' <= s[i] <= 'z' || IsDigit(s[i]) || s[i] == '_' { assert s[i] in s; }
    }
  }

  /** A declaration that names this kind and, behind an at sign, this profile. */
  ghost predicate Declares(declaration: string, kind: string, profile: Option<string>) {
    match profile
    case None => '@' !in declaration && Trim(declaration) == kind
    case Some(token) =>
      exists left, right :: IsSplitBy(declaration, '@', left, right) && Trim(left) == kind && Trim(right) == token
  }

  /** A number written out in digits that fits sixty-four bits. */
  predicate Counts(text: string, n: nat) {
    text != "" && DecimalValue(text) == Some(n) && n <= 18_446_744_073_709_551_615
  }

  /** A term: a declaration and a count around a colon. */
  ghost predicate IsTerm(raw: string, e: RosterEntry) {
    exists left, right :: IsSplitBy(Trim(raw), ':', left, right) && e.kind != "" &&
      Declares(Trim(left), e.kind, e.profile) && (e.profile.Some? ==> IsKindName(e.profile.value)) &&
      Counts(Trim(right), e.count)
  }

  /** What stands before the colon of a term, as far as it is parsed. */
  function ParseDeclaration(declaration: string): Result<(string, Option<string>), RosterError> {
    var at := IndexOf(declaration, '@');
    if at < |declaration| && Has(declaration[at + 1..], '@') then Failure(RosterInvalid)
    else
      var profile :- ParseProfile(declaration, at);
      Success((Trim(declaration[..at]), profile))
  }

  lemma DeclarationIsExact(declaration: string, kind: string, profile: Option<string>)
    requires Trimmed(declaration)
    ensures ParseDeclaration(declaration) == Success((kind, profile)) <==>
      Declares(declaration, kind, profile) && (profile.Some? ==> IsKindName(profile.value))
  {
    hide Trim, Has, IndexOf, IsKindName;
    SplitIsExact(declaration, '@');
    HasOf(declaration, '@');
    NothingIsNoKind();
    var at := IndexOf(declaration, '@');
    assert Has(declaration, '@') <==> at < |declaration| by { HasMeans(declaration, '@'); }
    if at == |declaration| {
      assert declaration[..at] == declaration;
    } else if !Has(declaration[at + 1..], '@') {
      assert IsSplitBy(declaration, '@', declaration[..at], declaration[at + 1..]);
    }
  }

  lemma HasMeans(s: string, c: char)
    ensures Has(s, c) <==> IndexOf(s, c) < |s|
  {
  }

  lemma NothingIsNoKind()
    ensures !IsKindName("")
  {
  }

  lemma CountIsExact(text: string, n: nat)
    ensures ParseCount(text) == Success(n) <==> Counts(text, n)
  {
  }

  /** What is accepted as a term, and what it is then read as, is exactly what is written as one. */
  lemma TermIsExact(raw: string, e: RosterEntry)
    ensures ParseTerm(raw) == Success(e) <==> IsTerm(raw, e)
  {
    hide Trim, Has, IndexOf, IsKindName, ParseProfile, ParseCount, Declares, Counts;
    var term := Trim(raw);
    SplitIsExact(term, ':');
    var colon := IndexOf(term, ':');
    if colon < |term| && !Has(term[colon + 1..], ':') {
      var declaration, countText := Trim(term[..colon]), Trim(term[colon + 1..]);
      TrimIsTrimmed(term[..colon]);
      assert IsSplitBy(term, ':', term[..colon], term[colon + 1..]);
      DeclarationIsExact(declaration, e.kind, e.profile);
      CountIsExact(countText, e.count);
      NoCountInNothing(e.count);
      DeclarationThenCount(raw, declaration, countText, e);
    }
  }

  lemma NoCountInNothing(n: nat)
    ensures !Counts("", n)
  {
  }

  lemma DeclarationThenCount(raw: string, declaration: string, countText: string, e: RosterEntry)
    requires var term := Trim(raw);
      var colon := IndexOf(term, ':');
      && colon < |term| && !Has(term[colon + 1..], ':')
      && declaration == Trim(term[..colon]) && countText == Trim(term[colon + 1..])
    ensures ParseTerm(raw) == Success(e) <==>
      && ParseDeclaration(declaration) == Success((e.kind, e.profile)) && e.kind != "" && countText != ""
      && ParseCount(countText) == Success(e.count)
  {
    hide Trim, Has, IndexOf, ParseProfile, ParseCount;
  }

  lemma {:induction false} TrimFrontIsTrimmed(s: string)
    ensures TrimFront(s) != "" ==> !IsBlank(TrimFront(s)[0])
  {
    if s != "" && IsBlank(s[0]) { TrimFrontIsTrimmed(s[1..]); }
  }

  lemma {:induction false} TrimBackIsTrimmed(s: string)
    requires s != "" ==> !IsBlank(s[0])
    ensures Trimmed(TrimBack(s))
  {
    if s != "" && IsBlank(s[|s| - 1]) { TrimBackIsTrimmed(s[..|s| - 1]); }
  }

  lemma TrimIsTrimmed(s: string)
    ensures Trimmed(Trim(s))
  {
    TrimFrontIsTrimmed(s);
    TrimBackIsTrimmed(TrimFront(s));
  }

  // ---------------------------------------------------------------- what a parsed roster is

  ghost predicate ValidRoster(entries: seq<RosterEntry>) {
    && |entries| <= 16
    && (forall i :: 0 <= i < |entries| ==> entries[i].kind != "" && entries[i].count > 0)
    && (forall i, j :: 0 <= i < j < |entries| ==> !SameName(entries[i], entries[j]))
  }

  lemma {:induction false} ParsedTermsAreValid(entries: seq<RosterEntry>, text: string)
    requires ValidRoster(entries)
    ensures ParseTerms(entries, text).Success? ==>
      ValidRoster(ParseTerms(entries, text).value) && entries < ParseTerms(entries, text).value
    decreases |text|
  {
    hide ParseTerm;
    var delimiter := IndexOf(text, ',');
    var term := ParseTerm(text[..delimiter]);
    if term.Success? && Admitted(entries, term.value) {
      var grown := entries + [term.value];
      assert ValidRoster(grown);
      if delimiter < |text| { ParsedTermsAreValid(grown, text[delimiter + 1..]); }
    }
  }

  /** Nothing is accepted with a zero count, a repeated declaration, or more than sixteen entries; and
      only blank text names nobody. */
  lemma ParsedRosterIsValid(value: string)
    ensures ParseRoster(value).Success? ==>
      ValidRoster(ParseRoster(value).value) && (ParseRoster(value).value == [] <==> Trim(value) == "")
  {
    hide ParseTerms;
    ParsedTermsAreValid([], Trim(value));
  }

  // ---------------------------------------------------------------- which lines are rosters

  /** The text is these entries' terms, each with a comma behind it, and then this tail. */
  ghost predicate Begins(text: string, entries: seq<RosterEntry>, tail: string)
    decreases |entries|
  {
    if entries == [] then text == tail
    else
      exists first, rest ::
        text == first + "," + rest && ',' !in first && IsTerm(first, entries[0]) && Begins(rest, entries[1..], tail)
  }

  /** The text is these entries' terms, with commas between them. */
  ghost predicate IsLine(text: string, entries: seq<RosterEntry>) {
    entries != [] &&
    exists tail ::
      Begins(text, entries[..|entries| - 1], tail) && ',' !in tail && IsTerm(tail, entries[|entries| - 1])
  }

  lemma CommaEndsTheTerm(first: string, rest: string)
    requires ',' !in first
    ensures var text := first + "," + rest;
      IndexOf(text, ',') == |first| && text[..|first|] == first && text[|first| + 1..] == rest
  {
    hide IndexOf;
    var text := first + "," + rest;
    forall k | 0 <= k < |first| ensures text[k] != ',' { assert text[k] == first[k]; }
    IndexIsFirst(text, ',', |first|);
  }

  lemma NoCommaNoEnd(text: string)
    requires ',' !in text
    ensures IndexOf(text, ',') == |text| && text[..|text|] == text
  {
  }

  lemma ValidGrows(entries: seq<RosterEntry>, e: RosterEntry)
    requires ValidRoster(entries)
    ensures ValidRoster(entries + [e]) <==> Admitted(entries, e)
  {
    var grown := entries + [e];
    assert grown[|entries|] == e;
    if ValidRoster(grown) {
      forall i | 0 <= i < |entries| ensures !SameName(entries[i], e) { assert grown[i] == entries[i]; }
    }
  }

  lemma ValidPrefix(entries: seq<RosterEntry>, n: nat)
    requires ValidRoster(entries) && n <= |entries|
    ensures ValidRoster(entries[..n])
  {
  }

  lemma {:induction false} TermsAreRead(before: seq<RosterEntry>, text: string, entries: seq<RosterEntry>, tail: string)
    requires Begins(text, entries, tail) && ValidRoster(before + entries)
    ensures ParseTerms(before, text) == ParseTerms(before + entries, tail)
    decreases |entries|
  {
    hide IndexOf, ParseTerm, IsTerm, ValidRoster;
    if entries == [] {
      assert before + entries == before;
    } else {
      var first, rest :| text == first + "," + rest && ',' !in first && IsTerm(first, entries[0])
        && Begins(rest, entries[1..], tail);
      CommaEndsTheTerm(first, rest);
      TermIsExact(first, entries[0]);
      var grown := before + [entries[0]];
      assert grown + entries[1..] == before + entries;
      assert (before + entries)[..|grown|] == grown && (before + entries)[..|before|] == before;
      ValidPrefix(before + entries, |grown|);
      ValidPrefix(before + entries, |before|);
      ValidGrows(before, entries[0]);
      TermsAreRead(grown, rest, entries[1..], tail);
    }
  }

  lemma LastTermIsRead(before: seq<RosterEntry>, text: string, e: RosterEntry)
    requires ',' !in text && IsTerm(text, e) && ValidRoster(before) && ValidRoster(before + [e])
    ensures ParseTerms(before, text) == Success(before + [e])
  {
    hide IndexOf, ParseTerm, IsTerm, ValidRoster, Admitted;
    NoCommaNoEnd(text);
    TermIsExact(text, e);
    ValidGrows(before, e);
  }

  lemma OneMoreTerm(first: string, rest: string, e: RosterEntry, entries: seq<RosterEntry>)
    requires ',' !in first && IsTerm(first, e) && IsLine(rest, entries)
    ensures IsLine(first + "," + rest, [e] + entries)
  {
    hide IsTerm;
    var n := |entries| - 1;
    var tail :| Begins(rest, entries[..n], tail) && ',' !in tail && IsTerm(tail, entries[n]);
    var all := [e] + entries;
    assert all[..|all| - 1] == [e] + entries[..n] && all[..|all| - 1][1..] == entries[..n];
    assert Begins(first + "," + rest, all[..|all| - 1], tail);
  }

  lemma OnlyTerm(text: string, e: RosterEntry)
    requires ',' !in text && IsTerm(text, e)
    ensures IsLine(text, [e])
  {
    hide IsTerm;
    assert [e][..0] == [] && Begins(text, [], text);
  }

  lemma TermComesFirst(before: seq<RosterEntry>, e: RosterEntry, r: seq<RosterEntry>)
    requires before + [e] <= r
    ensures before <= r && r[|before|..] == [e] + r[|before + [e]|..]
  {
  }

  lemma FirstTermIsRead(before: seq<RosterEntry>, text: string)
    requires ParseTerms(before, text).Success?
    ensures var d := IndexOf(text, ',');
      && ParseTerm(text[..d]).Success? && ',' !in text[..d]
      && var e := ParseTerm(text[..d]).value;
         && IsTerm(text[..d], e)
         && ParseTerms(before, text) ==
              if d == |text| then Success(before + [e]) else ParseTerms(before + [e], text[d + 1..])
  {
    hide IndexOf, ParseTerm, IsTerm, Admitted;
    var first := text[..IndexOf(text, ',')];
    TermIsExact(first, ParseTerm(first).value);
    FirstHasNone(text, ',');
  }

  lemma {:induction false} ReadTermsAreALine(before: seq<RosterEntry>, text: string)
    requires ParseTerms(before, text).Success?
    ensures var r := ParseTerms(before, text).value;
      before <= r && IsLine(text, r[|before|..])
    decreases |text|
  {
    hide IndexOf, ParseTerm, ParseTerms, IsTerm, IsLine;
    FirstTermIsRead(before, text);
    var d, r := IndexOf(text, ','), ParseTerms(before, text).value;
    var first := text[..d];
    var e := ParseTerm(first).value;
    if d == |text| {
      assert first == text;
      OnlyTerm(text, e);
      TermComesFirst(before, e, r);
      assert r[|before|..] == [e];
    } else {
      var rest := text[d + 1..];
      ReadTermsAreALine(before + [e], rest);
      OneMoreTerm(first, rest, e, r[|before + [e]|..]);
      TermComesFirst(before, e, r);
      assert text == first + "," + rest;
    }
  }

  lemma FirstHasNone(text: string, c: char)
    ensures c !in text[..IndexOf(text, c)]
  {
  }

  /** A line is a roster exactly when it is blank, or terms with commas between them that together make a valid
      one; and then it is the roster of those terms. */
  lemma LineIsExact(value: string, entries: seq<RosterEntry>)
    ensures ParseRoster(value) == Success(entries) <==>
      if Trim(value) == "" then entries == [] else IsLine(Trim(value), entries) && ValidRoster(entries)
  {
    hide Trim, IndexOf, ParseTerm, ParseTerms, IsTerm, ValidRoster, Begins;
    var text := Trim(value);
    if text != "" {
      if ParseRoster(value) == Success(entries) {
        ParsedRosterIsValid(value);
        ReadTermsAreALine([], text);
        assert entries[0..] == entries;
      }
      if IsLine(text, entries) && ValidRoster(entries) {
        var n := |entries| - 1;
        var tail :| Begins(text, entries[..n], tail) && ',' !in tail && IsTerm(tail, entries[n]);
        ValidPrefix(entries, n);
        assert [] + entries[..n] == entries[..n] && entries[..n] + [entries[n]] == entries;
        TermsAreRead([], text, entries[..n], tail);
        LastTermIsRead(entries[..n], tail, entries[n]);
      }
    }
  }

  // ---------------------------------------------------------------- why a line is not a roster

  /** A term with something behind its at sign that is no name. */
  ghost predicate MisnamesAProfile(raw: string) {
    exists left, right, kind, token ::
      IsSplitBy(Trim(raw), ':', left, right) && IsSplitBy(Trim(left), '@', kind, token) && Trim(token) != "" &&
      !IsKindName(Trim(token))
  }

  /** A term that is none has a misnamed profile, or is simply not one. */
  lemma TermIsRefusedFor(raw: string)
    ensures ParseTerm(raw) == Failure(ProfileNameInvalid) <==> MisnamesAProfile(raw)
    ensures ParseTerm(raw).Failure? ==>
      ParseTerm(raw).error == ProfileNameInvalid || ParseTerm(raw).error == RosterInvalid
  {
    hide Trim, Has, IndexOf, IsKindName, ParseCount, IsSplitBy;
    var term := Trim(raw);
    SplitIsExact(term, ':');
    CountFailure(raw);
    var colon := IndexOf(term, ':');
    if colon < |term| && !Has(term[colon + 1..], ':') {
      var declaration := Trim(term[..colon]);
      SplitIsExact(declaration, '@');
      assert IsSplitBy(term, ':', term[..colon], term[colon + 1..]);
      var at := IndexOf(declaration, '@');
      if at < |declaration| && !Has(declaration[at + 1..], '@') {
        assert IsSplitBy(declaration, '@', declaration[..at], declaration[at + 1..]);
      }
    }
  }

  lemma CountFailure(raw: string)
    ensures forall text :: ParseCount(text).Failure? ==> ParseCount(text).error == RosterInvalid
  {
  }

  /** The text up to its first comma. */
  predicate StartsWithTerm(text: string, term: string) {
    ',' !in term && (text == term || term + "," <= text)
  }

  lemma FirstTermIs(text: string, term: string)
    requires StartsWithTerm(text, term)
    ensures text[..IndexOf(text, ',')] == term
  {
    hide IndexOf;
    if text == term {
      NoCommaNoEnd(text);
    } else {
      var rest := text[|term| + 1..];
      assert text == term + "," + rest;
      CommaEndsTheTerm(term, rest);
    }
  }

  /** A line that begins well is refused for the first term that does not go on so: for a misnamed profile, or
      else as no roster. */
  lemma LineIsRefusedForItsFirstBadTerm(value: string, entries: seq<RosterEntry>, tail: string, term: string)
    requires Trim(value) != "" && Begins(Trim(value), entries, tail) && ValidRoster(entries)
    requires StartsWithTerm(tail, term) && forall e :: IsTerm(term, e) ==> !ValidRoster(entries + [e])
    ensures ParseRoster(value) == Failure(if MisnamesAProfile(term) then ProfileNameInvalid else RosterInvalid)
  {
    hide Trim, IndexOf, ParseTerm, IsTerm, ValidRoster, Begins, MisnamesAProfile, Admitted, StartsWithTerm;
    assert [] + entries == entries;
    TermsAreRead([], Trim(value), entries, tail);
    FirstTermIs(tail, term);
    TermIsRefusedFor(term);
    if ParseTerm(term).Success? {
      var e := ParseTerm(term).value;
      TermIsExact(term, e);
      ValidGrows(entries, e);
    }
  }

  // ---------------------------------------------------------------- printing

  predicate PlainName(s: string) {
    s != "" && Trimmed(s) && !Has(s, ',') && !Has(s, ':') && !Has(s, '@')
  }

  ghost predicate Printable(e: RosterEntry) {
    PlainName(e.kind) && 0 < e.count <= 18_446_744_073_709_551_615 && (e.profile.Some? ==> IsKindName(e.profile.value))
  }

  /** The whitespace a writer may put around the parts of one term. */
  datatype TermPadding = TermPadding(before: string, afterKind: string, beforeProfile: string, afterProfile: string,
                                     beforeCount: string, after: string)

  predicate BlankTerm(p: TermPadding) {
    && AllBlank(p.before) && AllBlank(p.afterKind) && AllBlank(p.beforeProfile) && AllBlank(p.afterProfile)
    && AllBlank(p.beforeCount) && AllBlank(p.after)
  }

  function DeclarationText(e: RosterEntry, p: TermPadding): string {
    e.kind + p.afterKind + match e.profile
    case None => ""
    case Some(profile) => "@" + (p.beforeProfile + profile + p.afterProfile)
  }

  function TermText(e: RosterEntry, p: TermPadding): string {
    p.before + (DeclarationText(e, p) + ":" + (p.beforeCount + PrintDecimal(e.count))) + p.after
  }

  function RosterText(entries: seq<RosterEntry>, paddings: seq<TermPadding>): string
    requires |entries| == |paddings| && entries != []
  {
    if |entries| == 1 then TermText(entries[0], paddings[0])
    else TermText(entries[0], paddings[0]) + "," + RosterText(entries[1..], paddings[1..])
  }

  lemma NoneOf(s: string, c: char)
    requires forall i :: 0 <= i < |s| ==> s[i] != c
    ensures !Has(s, c)
  {
    HasOf(s, c);
  }

  lemma NameHasNoPunctuation(s: string)
    requires IsKindName(s)
    ensures PlainName(s)
  {
    NoneOf(s, ',');
    NoneOf(s, ':');
    NoneOf(s, '@');
  }

  lemma CountHasNoPunctuation(n: nat)
    ensures PlainName(PrintDecimal(n))
  {
    var s := PrintDecimal(n);
    NoneOf(s, ',');
    NoneOf(s, ':');
    NoneOf(s, '@');
  }

  lemma BlankHasNo(s: string, c: char)
    requires AllBlank(s) && !IsBlank(c)
    ensures !Has(s, c)
  {
    NoneOf(s, c);
  }

  lemma JoinHasNo(a: string, b: string, c: char)
    requires !Has(a, c) && !Has(b, c)
    ensures !Has(a + b, c)
  {
    HasOf(a, c);
    HasOf(b, c);
    HasOf(a + b, c);
  }

  lemma SplitsAt(a: string, c: char, b: string)
    requires !Has(a, c)
    ensures IndexOf(a + [c] + b, c) == |a| && (a + [c] + b)[..|a|] == a && (a + [c] + b)[|a| + 1..] == b
  {
    HasOf(a, c);
    IndexIsFirst(a + [c] + b, c, |a|);
  }

  /** A declaration is read back whatever stands around the at sign. */
  lemma DeclarationReadsBack(e: RosterEntry, p: TermPadding)
    requires Printable(e) && BlankTerm(p)
    ensures var d := Trim(DeclarationText(e, p));
      var at := IndexOf(d, '@');
      && !(at < |d| && Has(d[at + 1..], '@')) && Trim(d[..at]) == e.kind && ParseProfile(d, at) == Success(e.profile)
    ensures !Has(DeclarationText(e, p), ':') && !Has(DeclarationText(e, p), ',') && DeclarationText(e, p) != ""
    ensures !IsBlank(DeclarationText(e, p)[0])
  {
    hide Has, IndexOf;
    BlankHasNo(p.afterKind, ':');
    BlankHasNo(p.afterKind, ',');
    JoinHasNo(e.kind, p.afterKind, ':');
    JoinHasNo(e.kind, p.afterKind, ',');
    match e.profile
    case None => PlainDeclaration(e, p);
    case Some(profile) => ProfiledDeclaration(e, p, profile);
  }

  lemma PlainDeclaration(e: RosterEntry, p: TermPadding)
    requires Printable(e) && BlankTerm(p) && e.profile.None?
    ensures DeclarationText(e, p) == e.kind + p.afterKind && Trim(DeclarationText(e, p)) == e.kind
    ensures IndexOf(e.kind, '@') == |e.kind| && Trim(e.kind) == e.kind && e.kind[..|e.kind|] == e.kind
  {
    assert DeclarationText(e, p) == "" + e.kind + p.afterKind;
    TrimDropsPadding("", e.kind, p.afterKind);
    assert e.kind == "" + e.kind + "";
    TrimDropsPadding("", e.kind, "");
  }

  lemma ProfiledDeclaration(e: RosterEntry, p: TermPadding, profile: string)
    requires Printable(e) && BlankTerm(p) && e.profile == Some(profile)
    requires !Has(e.kind + p.afterKind, ':') && !Has(e.kind + p.afterKind, ',')
    ensures var text := DeclarationText(e, p);
      var d := Trim(text);
      var at := IndexOf(d, '@');
      && at < |d| && !Has(d[at + 1..], '@') && Trim(d[..at]) == e.kind && Trim(d[at + 1..]) == profile
      && !Has(text, ':') && !Has(text, ',')
  {
    hide Has, IndexOf, IsKindName;
    NameHasNoPunctuation(profile);
    var left, right := e.kind + p.afterKind, p.beforeProfile + profile;
    var text := DeclarationText(e, p);
    assert text == "" + (left + ['@'] + right) + p.afterProfile;
    TrimDropsPadding("", left + ['@'] + right, p.afterProfile);
    BlankHasNo(p.afterKind, '@');
    JoinHasNo(e.kind, p.afterKind, '@');
    SplitsAt(left, '@', right);
    BlankHasNo(p.beforeProfile, '@');
    JoinHasNo(p.beforeProfile, profile, '@');
    assert left == "" + e.kind + p.afterKind && right == p.beforeProfile + profile + "";
    TrimDropsPadding("", e.kind, p.afterKind);
    TrimDropsPadding(p.beforeProfile, profile, "");
    ProfiledHasNo(e, p, profile, ':');
    ProfiledHasNo(e, p, profile, ',');
  }

  lemma ProfiledHasNo(e: RosterEntry, p: TermPadding, profile: string, c: char)
    requires BlankTerm(p) && e.profile == Some(profile) && !IsBlank(c) && c != '@' && !Has(profile, c)
    requires !Has(e.kind + p.afterKind, c)
    ensures !Has(DeclarationText(e, p), c)
  {
    hide Has;
    BlankHasNo(p.beforeProfile, c);
    BlankHasNo(p.afterProfile, c);
    JoinHasNo(p.beforeProfile, profile, c);
    JoinHasNo(p.beforeProfile + profile, p.afterProfile, c);
    NoneOf("@", c);
    JoinHasNo("@", p.beforeProfile + profile + p.afterProfile, c);
    JoinHasNo(e.kind + p.afterKind, "@" + (p.beforeProfile + profile + p.afterProfile), c);
  }

  /** A term is read back whatever stands around its parts. */
  lemma TermReadsBack(e: RosterEntry, p: TermPadding)
    requires Printable(e) && BlankTerm(p)
    ensures ParseTerm(TermText(e, p)) == Success(e) && !Has(TermText(e, p), ',')
  {
    hide Has, IndexOf, DeclarationText, PrintDecimal, DecimalValue, ParseProfile;
    var declaration, count := DeclarationText(e, p), PrintDecimal(e.count);
    DeclarationReadsBack(e, p);
    CountHasNoPunctuation(e.count);
    var right := p.beforeCount + count;
    var term := declaration + [':'] + right;
    assert TermText(e, p) == p.before + term + p.after;
    TrimDropsPadding(p.before, term, p.after);
    SplitsAt(declaration, ':', right);
    BlankHasNo(p.beforeCount, ':');
    JoinHasNo(p.beforeCount, count, ':');
    assert right == p.beforeCount + count + "";
    TrimDropsPadding(p.beforeCount, count, "");
    ReadUndoesPrint(e.count);
    TermHasNoComma(e, p);
  }

  lemma TermHasNoComma(e: RosterEntry, p: TermPadding)
    requires BlankTerm(p) && !Has(DeclarationText(e, p), ',') && !Has(PrintDecimal(e.count), ',')
    ensures !Has(TermText(e, p), ',')
  {
    hide Has, DeclarationText, PrintDecimal;
    var declaration, count := DeclarationText(e, p), PrintDecimal(e.count);
    BlankHasNo(p.before, ',');
    BlankHasNo(p.beforeCount, ',');
    BlankHasNo(p.after, ',');
    NoneOf(":", ',');
    JoinHasNo(p.beforeCount, count, ',');
    JoinHasNo(declaration, ":", ',');
    JoinHasNo(declaration + ":", p.beforeCount + count, ',');
    JoinHasNo(p.before, declaration + ":" + (p.beforeCount + count), ',');
    JoinHasNo(p.before + (declaration + ":" + (p.beforeCount + count)), p.after, ',');
  }

  lemma {:induction false} TermsReadBack(before: seq<RosterEntry>, entries: seq<RosterEntry>,
                                         paddings: seq<TermPadding>)
    requires |entries| == |paddings| && entries != [] && ValidRoster(before + entries)
    requires forall i :: 0 <= i < |entries| ==> Printable(entries[i]) && BlankTerm(paddings[i])
    ensures ParseTerms(before, RosterText(entries, paddings)) == Success(before + entries)
    decreases |entries|
  {
    hide ParseTerm, TermText, Printable, BlankTerm, Has, SameName;
    var term := TermText(entries[0], paddings[0]);
    TermReadsBack(entries[0], paddings[0]);
    NextIsAdmitted(before, entries);
    if |entries| == 1 {
      NoDelimiter(term);
      assert entries == [entries[0]];
    } else {
      var rest := RosterText(entries[1..], paddings[1..]);
      SplitsAt(term, ',', rest);
      assert before + entries == before + [entries[0]] + entries[1..];
      TermsReadBack(before + [entries[0]], entries[1..], paddings[1..]);
    }
  }

  lemma NoDelimiter(s: string)
    requires !Has(s, ',')
    ensures IndexOf(s, ',') == |s| && s[..|s|] == s
  {
  }

  lemma NextIsAdmitted(before: seq<RosterEntry>, entries: seq<RosterEntry>)
    requires entries != [] && ValidRoster(before + entries)
    ensures Admitted(before, entries[0])
  {
    hide SameName;
    var all := before + entries;
    assert all[|before|] == entries[0];
    forall i | 0 <= i < |before| ensures !SameName(before[i], entries[0]) { assert all[i] == before[i]; }
  }

  lemma TermEnds(e: RosterEntry, p: TermPadding)
    requires Printable(e)
    ensures var t := TermText(e, p);
      t != "" && (p.before == "" ==> !IsBlank(t[0])) && (p.after == "" ==> !IsBlank(t[|t| - 1]))
  {
    hide Has;
    var t, count := TermText(e, p), PrintDecimal(e.count);
    assert DeclarationText(e, p)[0] == e.kind[0];
    if p.after == "" { assert t[|t| - 1] == count[|count| - 1]; }
  }

  lemma {:induction false} RosterEnds(entries: seq<RosterEntry>, paddings: seq<TermPadding>)
    requires |entries| == |paddings| && entries != [] && forall i :: 0 <= i < |entries| ==> Printable(entries[i])
    requires paddings[|paddings| - 1].after == ""
    ensures var t := RosterText(entries, paddings);
      t != "" && (paddings[0].before == "" ==> !IsBlank(t[0])) && !IsBlank(t[|t| - 1])
  {
    hide TermText, Printable;
    TermEnds(entries[0], paddings[0]);
    if |entries| > 1 { RosterEnds(entries[1..], paddings[1..]); }
  }

  /** A roster's line: blank for no bots at all, and otherwise its terms. */
  function RosterLine(entries: seq<RosterEntry>, paddings: seq<TermPadding>): string
    requires |entries| == |paddings|
  {
    if entries == [] then "" else RosterText(entries, paddings)
  }

  /** Printing any valid roster, however its parts are padded, and parsing it gives the roster back. The
      outermost whitespace is the caller's before and after. */
  lemma ParseUndoesPrintRoster(entries: seq<RosterEntry>, paddings: seq<TermPadding>, before: string, after: string)
    requires |entries| == |paddings| && ValidRoster(entries) && AllBlank(before) && AllBlank(after)
    requires forall i :: 0 <= i < |entries| ==> Printable(entries[i]) && BlankTerm(paddings[i])
    requires entries != [] ==> paddings[0].before == "" && paddings[|paddings| - 1].after == ""
    ensures ParseRoster(before + RosterLine(entries, paddings) + after) == Success(entries)
  {
    hide ParseTerms, Printable, BlankTerm, TermText, RosterText, Trim;
    if entries != [] {
      RosterEnds(entries, paddings);
      assert [] + entries == entries;
      TermsReadBack([], entries, paddings);
    }
    TrimDropsPadding(before, RosterLine(entries, paddings), after);
  }

  // ---------------------------------------------------------------- admission

  /** The controller registry: each kind and whether it requires a profile. */
  type Registry = map<string, bool>

  function TotalBots(entries: seq<RosterEntry>): nat {
    if entries == [] then 0 else TotalBots(entries[..|entries| - 1]) + entries[|entries| - 1].count
  }

  /** The first thing wrong with one entry below the others, if anything is. */
  function EntryError(registry: Registry, preceding: seq<RosterEntry>, entry: RosterEntry,
                      total: nat): Option<RosterError>
  {
    if !Admitted(preceding, entry) then Some(RosterInvalid)
    else if entry.kind !in registry then Some(KindUnknown)
    else if registry[entry.kind] && entry.profile.None? then Some(ProfileRequired)
    else if !registry[entry.kind] && entry.profile.Some? then Some(ProfileUnexpected)
    else if entry.count > MAXIMUM_BOT_COUNT || total > MAXIMUM_BOT_COUNT - entry.count then Some(RosterTooLarge)
    else None
  }

  function RosterErrorOf(registry: Registry, entries: seq<RosterEntry>): Option<RosterError> {
    if entries == [] then None
    else
      var front, last := entries[..|entries| - 1], entries[|entries| - 1];
      var earlier := RosterErrorOf(registry, front);
      if earlier.Some? then earlier else EntryError(registry, front, last, TotalBots(front))
  }

  /** The admission loop; the running total it keeps never leaves the admitted range. */
  method AdmitRoster(registry: Registry, entries: seq<RosterEntry>) returns (error: Option<RosterError>, total: nat)
    ensures error == RosterErrorOf(registry, entries)
    ensures total <= 256 && (error.None? ==> total == TotalBots(entries))
  {
    hide Admitted;
    total := 0;
    for i := 0 to |entries|
      invariant RosterErrorOf(registry, entries[..i]).None? && total == TotalBots(entries[..i])
      invariant total <= MAXIMUM_BOT_COUNT
    {
      assert entries[..i + 1][..i] == entries[..i];
      error := EntryError(registry, entries[..i], entries[i], total);
      if error.Some? {
        FirstErrorStays(registry, entries, i + 1);
        return;
      }
      total := total + entries[i].count;
    }
    assert entries[..|entries|] == entries;
    error := None;
  }

  lemma {:induction false} FirstErrorStays(registry: Registry, entries: seq<RosterEntry>, n: nat)
    requires n <= |entries| && RosterErrorOf(registry, entries[..n]).Some?
    ensures RosterErrorOf(registry, entries) == RosterErrorOf(registry, entries[..n])
  {
    if n == |entries| {
      assert entries[..n] == entries;
    } else {
      assert entries[..|entries| - 1][..n] == entries[..n];
      FirstErrorStays(registry, entries[..|entries| - 1], n);
    }
  }

  ghost predicate Registered(registry: Registry, entries: seq<RosterEntry>) {
    forall i :: 0 <= i < |entries| ==>
      entries[i].kind in registry && (registry[entries[i].kind] <==> entries[i].profile.Some?)
  }

  lemma {:induction false} TotalIsMonotone(entries: seq<RosterEntry>, n: nat)
    requires n <= |entries|
    ensures TotalBots(entries[..n]) <= TotalBots(entries)
  {
    if n < |entries| {
      TotalIsMonotone(entries[..|entries| - 1], n);
      assert entries[..|entries| - 1][..n] == entries[..n];
    } else {
      assert entries[..n] == entries;
    }
  }

  lemma OneMoreIsValid(front: seq<RosterEntry>, last: RosterEntry)
    ensures ValidRoster(front + [last]) <==> ValidRoster(front) && Admitted(front, last)
  {
    hide SameName;
    var all := front + [last];
    if ValidRoster(all) {
      NextIsAdmitted(front, [last]);
      assert all[..|front|] == front;
      assert forall i :: 0 <= i < |front| ==> all[i] == front[i];
    }
  }

  lemma OneMoreIsRegistered(registry: Registry, front: seq<RosterEntry>, last: RosterEntry)
    ensures Registered(registry, front + [last]) <==>
      Registered(registry, front) && last.kind in registry && (registry[last.kind] <==> last.profile.Some?)
  {
    var all := front + [last];
    assert all[|front|] == last && forall i :: 0 <= i < |front| ==> all[i] == front[i];
  }

  /** A roster is admitted exactly when it is valid, every kind is registered and profiled as its
      registration asks, and it seats at most 256 bots in all. */
  lemma {:induction false} AdmittedExactlyWhen(registry: Registry, entries: seq<RosterEntry>)
    ensures RosterErrorOf(registry, entries).None? <==>
      ValidRoster(entries) && Registered(registry, entries) && TotalBots(entries) <= 256
  {
    if entries != [] {
      hide Admitted, ValidRoster, Registered;
      var front, last := entries[..|entries| - 1], entries[|entries| - 1];
      assert entries == front + [last];
      AdmittedExactlyWhen(registry, front);
      OneMoreIsValid(front, last);
      OneMoreIsRegistered(registry, front, last);
    }
  }

  ghost predicate Admissible(registry: Registry, entries: seq<RosterEntry>) {
    ValidRoster(entries) && Registered(registry, entries) && TotalBots(entries) <= 256
  }

  /** A roster that is not admitted is refused for its first entry that spoils it, and the error says how: no
      entry at all, none that is left to name, or one named before; a kind nobody registered; a profile its
      kind needs, or one it does not take; or too many bots. */
  lemma RosterIsRefusedForItsFirstBadEntry(registry: Registry, entries: seq<RosterEntry>, i: nat)
    requires i < |entries| && Admissible(registry, entries[..i]) && !Admissible(registry, entries[..i + 1])
    ensures var error, e := RosterErrorOf(registry, entries), entries[i];
      var repeated := exists j :: 0 <= j < i && entries[j].kind == e.kind && entries[j].profile == e.profile;
      var named := i < 16 && e.kind != "" && e.count > 0 && !repeated;
      var known := named && e.kind in registry;
      && (error == Some(RosterInvalid) <==> !named)
      && (error == Some(KindUnknown) <==> named && !known)
      && (error == Some(ProfileRequired) <==> known && registry[e.kind] && e.profile.None?)
      && (error == Some(ProfileUnexpected) <==> known && !registry[e.kind] && e.profile.Some?)
      && (error == Some(RosterTooLarge) <==> known && (registry[e.kind] <==> e.profile.Some?))
  {
    hide ValidRoster, Registered, EntryError, TotalBots;
    AdmittedExactlyWhen(registry, entries[..i]);
    AdmittedExactlyWhen(registry, entries[..i + 1]);
    FirstErrorStays(registry, entries, i + 1);
    assert entries[..i + 1][..i] == entries[..i] && entries[..i + 1][i] == entries[i];
    EntryErrorIsExact(registry, entries[..i], entries[i], TotalBots(entries[..i]));
    assert (exists j :: 0 <= j < i && SameName(entries[..i][j], entries[i])) <==>
      exists j :: 0 <= j < i && SameName(entries[j], entries[i]);
  }

  lemma EntryErrorIsExact(registry: Registry, preceding: seq<RosterEntry>, e: RosterEntry, total: nat)
    ensures var error := EntryError(registry, preceding, e, total);
      var repeated := exists j :: 0 <= j < |preceding| && SameName(preceding[j], e);
      var named := |preceding| < 16 && e.kind != "" && e.count > 0 && !repeated;
      var known := named && e.kind in registry;
      && (error == Some(RosterInvalid) <==> !named)
      && (error == Some(KindUnknown) <==> named && !known)
      && (error == Some(ProfileRequired) <==> known && registry[e.kind] && e.profile.None?)
      && (error == Some(ProfileUnexpected) <==> known && !registry[e.kind] && e.profile.Some?)
      && (error == Some(RosterTooLarge) <==>
            known && (registry[e.kind] <==> e.profile.Some?) && total + e.count > 256)
      && (error == None <==> known && (registry[e.kind] <==> e.profile.Some?) && total + e.count <= 256)
  {
  }

  // ---------------------------------------------------------------- the lobby

  /** As many unfilled seats as an entry asks for, in a row. */
  function Repeated(entry: RosterEntry, n: nat): seq<Seat> {
    if n == 0 then [] else Repeated(entry, n - 1) + [NpcSeat(entry.kind, None, entry.profile)]
  }

  /** The roster run-length expanded, entry by entry. */
  function Expansion(entries: seq<RosterEntry>): seq<Seat> {
    if entries == [] then []
    else Expansion(entries[..|entries| - 1]) + Repeated(entries[|entries| - 1], entries[|entries| - 1].count)
  }

  function EmptySeats(n: nat): seq<Seat> {
    if n == 0 then [] else EmptySeats(n - 1) + [EmptySeat]
  }

  /** A mode without a start button holds no seats; otherwise the expansion fills the first seats and the
      rest stay empty, or does not fit. */
  function InitialSeats(startable: bool, seatCount: nat, entries: seq<RosterEntry>): Result<SeatRoster, RosterError> {
    if !startable then Success([])
    else if |Expansion(entries)| > seatCount then Failure(BotsExceedSeats)
    else Success(Expansion(entries) + EmptySeats(seatCount - |Expansion(entries)|))
  }

  lemma {:induction false} RepeatedAt(entry: RosterEntry, n: nat)
    ensures |Repeated(entry, n)| == n && forall k :: 0 <= k < n ==>
      Repeated(entry, n)[k] == NpcSeat(entry.kind, None, entry.profile)
  {
    if n > 0 { RepeatedAt(entry, n - 1); }
  }

  lemma {:induction false} EmptySeatsAt(n: nat)
    ensures |EmptySeats(n)| == n && forall k :: 0 <= k < n ==> EmptySeats(n)[k] == EmptySeat
  {
    if n > 0 { EmptySeatsAt(n - 1); }
  }

  lemma {:induction false} ExpansionSeatsEveryBot(entries: seq<RosterEntry>)
    ensures |Expansion(entries)| == TotalBots(entries)
  {
    if entries != [] {
      ExpansionSeatsEveryBot(entries[..|entries| - 1]);
      RepeatedAt(entries[|entries| - 1], entries[|entries| - 1].count);
    }
  }

  /** Seat k comes after the bots of every entry before e and before the bots of every entry after it. */
  ghost predicate FallsTo(entries: seq<RosterEntry>, e: nat, k: nat) {
    e < |entries| && TotalBots(entries[..e]) <= k < TotalBots(entries[..e + 1])
  }

  /** Seat building fails exactly when the lobby has fewer seats than the roster has bots; otherwise entry
      e's bots hold the seats from the running total before it to the one after it, and every seat past
      the last bot is empty. A mode without a lobby seats nobody. */
  lemma SeatsFollowTheRoster(startable: bool, seatCount: nat, entries: seq<RosterEntry>)
    ensures InitialSeats(startable, seatCount, entries).Failure? <==> startable && TotalBots(entries) > seatCount
    ensures InitialSeats(startable, seatCount, entries).Success? ==>
      var seats := InitialSeats(startable, seatCount, entries).value;
      if startable then
        && |seats| == seatCount && TotalBots(entries) <= seatCount
        && (forall e: nat, k: nat :: FallsTo(entries, e, k) ==>
              && k < seatCount && Unfilled(seats[k]) && seats[k] == NpcSeat(entries[e].kind, None, entries[e].profile))
        && (forall k :: TotalBots(entries) <= k < seatCount ==> seats[k] == EmptySeat)
      else seats == []
  {
    ExpansionSeatsEveryBot(entries);
    if startable && TotalBots(entries) <= seatCount {
      EmptySeatsAt(seatCount - TotalBots(entries));
      var seats := InitialSeats(startable, seatCount, entries).value;
      forall e: nat, k: nat | FallsTo(entries, e, k)
        ensures k < seatCount && seats[k] == NpcSeat(entries[e].kind, None, entries[e].profile)
      {
        ExpansionAt(entries, e, k);
      }
    }
  }

  lemma {:induction false} ExpansionAt(entries: seq<RosterEntry>, e: nat, k: nat)
    requires e < |entries| && TotalBots(entries[..e]) <= k < TotalBots(entries[..e + 1])
    ensures |Expansion(entries)| == TotalBots(entries) && k < TotalBots(entries)
    ensures Expansion(entries)[k] == NpcSeat(entries[e].kind, None, entries[e].profile)
  {
    var front, last := entries[..|entries| - 1], entries[|entries| - 1];
    ExpansionSeatsEveryBot(entries);
    ExpansionSeatsEveryBot(front);
    RepeatedAt(last, last.count);
    if e == |entries| - 1 {
      assert entries[..e + 1] == entries && entries[..e] == front;
    } else {
      assert front[..e] == entries[..e] && front[..e + 1] == entries[..e + 1];
      ExpansionAt(front, e, k);
    }
  }

  /** The nested loops that assign seats one after another. */
  method InitialSeatRosterFor(startable: bool, seatCount: nat, entries: seq<RosterEntry>)
    returns (r: Result<SeatRoster, RosterError>)
    ensures r == InitialSeats(startable, seatCount, entries)
  {
    if !startable { return Success([]); }
    var roster := EmptySeats(seatCount);
    EmptySeatsAt(seatCount);
    var next := 0;
    for i := 0 to |entries|
      invariant next == |Expansion(entries[..i])| <= seatCount
      invariant roster == Expansion(entries[..i]) + EmptySeats(seatCount - next)
    {
      assert entries[..i + 1][..i] == entries[..i];
      var entry := entries[i];
      ghost var before := Expansion(entries[..i]);
      for ordinal := 0 to entry.count
        invariant next == |before| + ordinal <= seatCount
        invariant roster == before + Repeated(entry, ordinal) + EmptySeats(seatCount - next)
      {
        RepeatedAt(entry, ordinal);
        EmptySeatsAt(seatCount - next);
        if next >= |roster| {
          NothingMoreFits(entries, i, ordinal, seatCount);
          return Failure(BotsExceedSeats);
        }
        OneMoreSeated(before, entry, ordinal, seatCount - next);
        roster := roster[next := NpcSeat(entry.kind, None, entry.profile)];
        next := next + 1;
      }
      RepeatedAt(entry, entry.count);
    }
    assert entries[..|entries|] == entries;
    r := Success(roster);
  }

  lemma OneMoreSeated(before: seq<Seat>, entry: RosterEntry, ordinal: nat, vacant: nat)
    requires vacant > 0
    ensures |before + Repeated(entry, ordinal) + EmptySeats(vacant)| == |before| + ordinal + vacant
    ensures (before + Repeated(entry, ordinal) + EmptySeats(vacant))[|before| + ordinal :=
              NpcSeat(entry.kind, None, entry.profile)] ==
            before + Repeated(entry, ordinal + 1) + EmptySeats(vacant - 1)
  {
    RepeatedAt(entry, ordinal);
    RepeatedAt(entry, ordinal + 1);
    EmptySeatsAt(vacant);
    EmptySeatsAt(vacant - 1);
  }

  lemma NothingMoreFits(entries: seq<RosterEntry>, i: nat, ordinal: nat, seatCount: nat)
    requires i < |entries| && ordinal < entries[i].count && |Expansion(entries[..i])| + ordinal >= seatCount
    ensures |Expansion(entries)| > seatCount
  {
    ExpansionSeatsEveryBot(entries);
    ExpansionSeatsEveryBot(entries[..i]);
    TotalIsMonotone(entries, i + 1);
    assert entries[..i + 1][..i] == entries[..i];
  }
}
