/**
 Choosing and ordering the releases of the site: the highest stable version
 first, the others by publication date.
 */
module StableReleases {
  import opened Numerals
  import opened Sequences
  import opened Strings

  // ------------------------------------------------------------------ //
  // Tags
  // ------------------------------------------------------------------ //

  datatype Triple = Triple(major: nat, minor: nat, patch: nat)

  predicate StableTag(tag: string) {
    tag != "" && tag[0] == 'v' &&
    var parts := SplitOn(tag[1..], '.');
    |parts| == 3 && forall k :: 0 <= k < 3 ==> IsNumeral(parts[k])
  }

  function TripleOf(tag: string): Triple
    requires StableTag(tag)
  {
    var parts := SplitOn(tag[1..], '.');
    Triple(Value(parts[0]), Value(parts[1]), Value(parts[2]))
  }

  function TagOf(t: Triple): string {
    "v" + (Numeral(t.major) + ['.'] + (Numeral(t.minor) + ['.'] + Numeral(t.patch)))
  }

  lemma NoDot(n: nat)
    ensures '.' !in Numeral(n)
  {
    forall c | c in Numeral(n) ensures c != '.' {
      var i :| 0 <= i < |Numeral(n)| && Numeral(n)[i] == c;
    }
  }

  /** Tags and triples are in bijection: a tag for every triple ... */
  lemma TagOfTriple(t: Triple)
    ensures StableTag(TagOf(t)) && TripleOf(TagOf(t)) == t
  {
    var a, b, c := Numeral(t.major), Numeral(t.minor), Numeral(t.patch);
    NoDot(t.major);
    NoDot(t.minor);
    NoDot(t.patch);
    SplitOfText(a, '.', b + ['.'] + c);
    SplitOfText(b, '.', c);
    SplitOfText(c, '.', "");
    assert TagOf(t)[1..] == a + ['.'] + (b + ['.'] + c);
    ValueOfNumeral(t.major);
    ValueOfNumeral(t.minor);
    ValueOfNumeral(t.patch);
    assert SplitOn(TagOf(t)[1..], '.') == [a, b, c];
  }

  /** ... and a triple for every tag that gives it back. */
  lemma TripleOfTag(tag: string)
    requires StableTag(tag)
    ensures TagOf(TripleOf(tag)) == tag
  {
    var parts := SplitOn(tag[1..], '.');
    JoinOfSplit(tag[1..], '.');
    assert tag == ['v'] + tag[1..];
    NumeralOfValue(parts[0]);
    NumeralOfValue(parts[1]);
    NumeralOfValue(parts[2]);
    assert parts[1..][1..] == [parts[2]];
    assert JoinWith(parts[1..], '.') == parts[1] + ['.'] + parts[2];
    assert JoinWith(parts, '.') == parts[0] + ['.'] + (parts[1] + ['.'] + parts[2]);
  }

  predicate Higher(a: Triple, b: Triple) {
    a.major > b.major || (a.major == b.major && (a.minor > b.minor || (a.minor == b.minor && a.patch > b.patch)))
  }

  // ------------------------------------------------------------------ //
  // Publication dates
  // ------------------------------------------------------------------ //

  datatype Instant = Instant(year: nat, month: nat, day: nat, hour: nat, minute: nat, second: nat)

  predicate Earlier(a: Instant, b: Instant) {
    a.hour < b.hour || (a.hour == b.hour &&
    (a.minute < b.minute || (a.minute == b.minute && a.second < b.second)))
  }

  predicate Before(a: Instant, b: Instant) {
    a.year < b.year || (a.year == b.year &&
    (a.month < b.month || (a.month == b.month &&
    (a.day < b.day || (a.day == b.day && Earlier(a, b))))))
  }

  predicate Leap(year: nat) {
    year % 4 == 0 && (year % 100 != 0 || year % 400 == 0)
  }

  function DaysIn(year: nat, month: nat): nat {
    if month == 2 then (if Leap(year) then 29 else 28)
    else if month == 4 || month == 6 || month == 9 || month == 11 then 30 else 31
  }

  predicate Shaped(s: string) {
    && |s| == 20
    && Digits(s[0..4]) && Digits(s[5..7]) && Digits(s[8..10]) && Digits(s[11..13]) && Digits(s[14..16]) && Digits(s[17..19])
    && s[4] == '-' && s[7] == '-' && s[10] == 'T' && s[13] == ':' && s[16] == ':' && s[19] == 'Z'
  }

  function InstantOf(s: string): Instant
    requires Shaped(s)
  {
    Instant(Value(s[0..4]), Value(s[5..7]), Value(s[8..10]), Value(s[11..13]), Value(s[14..16]), Value(s[17..19]))
  }

  /** A date that exists, written as the listing writes it. */
  predicate Published(s: string) {
    Shaped(s) &&
    var t := InstantOf(s);
    && t.year >= 1 && 1 <= t.month <= 12 && 1 <= t.day <= DaysIn(t.year, t.month)
    && t.hour < 24 && t.minute < 60 && t.second < 60
  }

  /** The day is in the calendar. */
  predicate RealDay(year: nat, month: nat, day: nat) {
    var february := if year % 400 == 0 || (year % 4 == 0 && year % 100 != 0) then 29 else 28;
    && 1 <= year && 1 <= month <= 12
    && 1 <= day <= [31, february, 31, 30, 31, 30, 31, 31, 30, 31, 30, 31][month - 1]
  }

  /** `%Y-%m-%dT%H:%M:%SZ` */
  ghost predicate Stamped(s: string, year: string, month: string, day: string, hour: string, minute: string, second: string) {
    && |year| == 4 && |month| == |day| == |hour| == |minute| == |second| == 2
    && Digits(year) && Digits(month) && Digits(day) && Digits(hour) && Digits(minute) && Digits(second)
    && s == year + "-" + month + "-" + day + "T" + hour + ":" + minute + ":" + second + "Z"
  }

  /** A stamp that names a day of the calendar and a time of that day. */
  ghost predicate NamesInstant(
    s: string, year: string, month: string, day: string, hour: string, minute: string, second: string)
  {
    && Stamped(s, year, month, day, hour, minute, second)
    && RealDay(Value(year), Value(month), Value(day)) && Value(hour) <= 23 && Value(minute) <= 59 && Value(second) <= 59
  }

  lemma StampedPlaces(s: string, year: string, month: string, day: string, hour: string, minute: string, second: string)
    requires Stamped(s, year, month, day, hour, minute, second)
    ensures |s| == 20 && s[4] == '-' && s[7] == '-' && s[10] == 'T' && s[13] == ':' && s[16] == ':' && s[19] == 'Z'
    ensures forall k :: 0 <= k < 4 ==> s[k] == year[k]
    ensures forall k :: 0 <= k < 2 ==> s[5 + k] == month[k] && s[8 + k] == day[k]
    ensures forall k :: 0 <= k < 2 ==> s[11 + k] == hour[k] && s[14 + k] == minute[k] && s[17 + k] == second[k]
  {
  }

  lemma StampedIsShaped(s: string, year: string, month: string, day: string, hour: string, minute: string, second: string)
    requires Stamped(s, year, month, day, hour, minute, second)
    ensures Shaped(s) && s[0..4] == year && s[5..7] == month && s[8..10] == day
    ensures s[11..13] == hour && s[14..16] == minute && s[17..19] == second
  {
    StampedPlaces(s, year, month, day, hour, minute, second);
    assert month == [month[0], month[1]] && day == [day[0], day[1]] && hour == [hour[0], hour[1]];
    assert minute == [minute[0], minute[1]] && second == [second[0], second[1]];
    assert s[5..7] == [s[5 + 0], s[5 + 1]] && s[8..10] == [s[8 + 0], s[8 + 1]] && s[11..13] == [s[11 + 0], s[11 + 1]];
    assert s[14..16] == [s[14 + 0], s[14 + 1]] && s[17..19] == [s[17 + 0], s[17 + 1]];
    assert s[0..4] == year;
  }

  lemma ShapedIsStamped(s: string)
    requires Shaped(s)
    ensures Stamped(s, s[0..4], s[5..7], s[8..10], s[11..13], s[14..16], s[17..19])
  {
    assert s == s[0..4] + [s[4]] + s[5..7] + [s[7]] + s[8..10] + [s[10]] + s[11..13] + [s[13]] + s[14..16] + [s[16]]
                + s[17..19] + [s[19]];
  }

  lemma RealDayIff(year: nat, month: nat, day: nat)
    ensures year >= 1 && 1 <= month <= 12 && 1 <= day <= DaysIn(year, month) <==> RealDay(year, month, day)
  {
  }

  /** A date is accepted exactly if it is a stamp that names an instant. */
  lemma PublishedIff(s: string)
    ensures Published(s) <==> exists year, month, day, hour, minute, second :: NamesInstant(s, year, month, day, hour, minute, second)
  {
    if Published(s) {
      var t := InstantOf(s);
      RealDayIff(t.year, t.month, t.day);
      ShapedIsStamped(s);
      assert NamesInstant(s, s[0..4], s[5..7], s[8..10], s[11..13], s[14..16], s[17..19]);
    }
    forall year, month, day, hour, minute, second | NamesInstant(s, year, month, day, hour, minute, second) ensures Published(s) {
      StampedIsShaped(s, year, month, day, hour, minute, second);
      RealDayIff(Value(year), Value(month), Value(day));
    }
  }

  lemma FieldOrder(f: string, g: string, sep: char, x: string, y: string)
    requires Digits(f) && Digits(g) && |f| == |g|
    ensures Less(f + [sep] + x, g + [sep] + y) <==> Value(f) < Value(g) || (Value(f) == Value(g) && Less(x, y))
  {
    LessIsSmaller(f, g);
    assert f + [sep] + x == f + ([sep] + x) && g + [sep] + y == g + ([sep] + y);
    LessByParts(f, g, [sep] + x, [sep] + y);
    assert ([sep] + x)[1..] == x && ([sep] + y)[1..] == y;
  }

  lemma FieldAt(s: string, i: nat, j: nat)
    requires i <= j < |s|
    ensures s[i..] == s[i..j] + [s[j]] + s[j + 1..]
  {
  }

  lemma ClockOrder(a: string, b: string)
    requires Shaped(a) && Shaped(b)
    ensures Less(a[11..], b[11..]) <==> Earlier(InstantOf(a), InstantOf(b))
  {
    assert a[20..] == "" == b[20..];
    DateOrder(a, b, 17, 19);
    DateOrder(a, b, 14, 16);
    DateOrder(a, b, 11, 13);
  }

  /** The text order of publication dates is their order in time. */
  lemma TextOrderIsTimeOrder(a: string, b: string)
    requires Shaped(a) && Shaped(b)
    ensures Less(a, b) <==> Before(InstantOf(a), InstantOf(b))
  {
    assert a[0..] == a && b[0..] == b;
    ClockOrder(a, b);
    DateOrder(a, b, 8, 10);
    DateOrder(a, b, 5, 7);
    DateOrder(a, b, 0, 4);
  }

  lemma DateOrder(a: string, b: string, i: nat, j: nat)
    requires i <= j < |a| == |b| && a[j] == b[j] && Digits(a[i..j]) && Digits(b[i..j])
    ensures Less(a[i..], b[i..]) <==>
            Value(a[i..j]) < Value(b[i..j]) || (Value(a[i..j]) == Value(b[i..j]) && Less(a[j + 1..], b[j + 1..]))
  {
    FieldAt(a, i, j);
    FieldAt(b, i, j);
    FieldOrder(a[i..j], b[i..j], a[j], a[j + 1..], b[j + 1..]);
  }

  // ------------------------------------------------------------------ //
  // The listing
  // ------------------------------------------------------------------ //

  /** A field of a JSON object: absent or null, a string, a boolean, or anything else. */
  datatype Field = Null | Text(text: string) | Flag(value: bool) | Other

  datatype Entry =
    | Malformed
    | Entry(draft: Field, prerelease: Field, tag: Field, url: Field, published: Field, name: Field, body: Field)

  datatype Release = Release(tag: string, url: string, published: string, date: Instant, name: string, body: string)

  datatype Problem =
    | InvalidRepository | InvalidRecord | NoVisibility | NoTag | DuplicateTag | WrongUrl | WrongDate | WrongText | NoReleases

  datatype Verdict = Passed | Skipped | Bad(problem: Problem)

  predicate RepositoryChar(c: char) {
    'A' <= c <= 'Z' || 'a' <= c <= 'z' || '0' <= c <= '9' || c == '_' || c == '.' || c == '-'
  }

  predicate Repository(name: string) {
    var parts := SplitOn(name, '/');
    && |parts| == 2 && parts[0] != "" && parts[1] != ""
    && (forall c :: c in parts[0] ==> RepositoryChar(c))
    && (forall c :: c in parts[1] ==> RepositoryChar(c))
  }

  /** `[A-Za-z0-9_.-]+` */
  predicate RepositoryWord(s: string) {
    s != "" && forall k :: 0 <= k < |s| ==>
      'a' <= s[k] <= 'z' || 'A' <= s[k] <= 'Z' || s[k] in "0123456789" || s[k] in "_.-"
  }

  lemma RepositoryWordIff(s: string)
    ensures RepositoryWord(s) <==> s != "" && forall c :: c in s ==> RepositoryChar(c)
  {
    if RepositoryWord(s) {
      forall c | c in s ensures RepositoryChar(c) {
        var k :| 0 <= k < |s| && s[k] == c;
      }
    }
    if forall c :: c in s ==> RepositoryChar(c) {
      forall k | 0 <= k < |s| ensures 'a' <= s[k] <= 'z' || 'A' <= s[k] <= 'Z' || s[k] in "0123456789" || s[k] in "_.-" {
        assert RepositoryChar(s[k]);
        if '0' <= s[k] <= '9' { TenDigits(s[k]); }
      }
    }
  }

  lemma TenDigits(c: char)
    requires '0' <= c <= '9'
    ensures c in "0123456789"
  {
    var d := "0123456789";
    assert c == d[c as int - '0' as int];
  }

  /** A repository is named by its owner and its own name. */
  lemma RepositoryIff(name: string)
    ensures Repository(name) <==> exists owner, own :: name == owner + "/" + own && RepositoryWord(owner) && RepositoryWord(own)
  {
    if Repository(name) {
      var parts := SplitOn(name, '/');
      JoinOfSplit(name, '/');
      RepositoryWordIff(parts[0]);
      RepositoryWordIff(parts[1]);
      assert JoinWith(parts[1..], '/') == parts[1];
      assert name == parts[0] + "/" + parts[1];
    }
    forall owner, own | name == owner + "/" + own && RepositoryWord(owner) && RepositoryWord(own) ensures Repository(name) {
      RepositoryWordIff(owner);
      RepositoryWordIff(own);
      SplitOfText(owner, '/', own);
      SplitOfText(own, '/', "");
      assert SplitOn(name, '/') == [owner] + [own];
    }
  }

  /** A stable tag needs no quoting in a URL. */
  function UrlOf(repository: string, tag: string): string {
    "https://github.com/" + repository + "/releases/tag/" + tag
  }

  predicate TextOrNull(f: Field) {
    f.Null? || f.Text?
  }

  /** What one record comes to, with the stable tags before it. */
  function Judge(e: Entry, seen: set<string>, repository: string): Verdict {
    if e.Malformed? then Bad(InvalidRecord)
    else if !e.draft.Flag? || !e.prerelease.Flag? then Bad(NoVisibility)
    else if e.draft.value || e.prerelease.value then Skipped
    else if !e.tag.Text? then Bad(NoTag)
    else if !StableTag(e.tag.text) then Skipped
    else if e.tag.text in seen then Bad(DuplicateTag)
    else if e.url != Text(UrlOf(repository, e.tag.text)) then Bad(WrongUrl)
    else if !e.published.Text? || !Published(e.published.text) then Bad(WrongDate)
    else if !TextOrNull(e.name) || !TextOrNull(e.body) then Bad(WrongText)
    else Passed
  }

  function ReleaseOf(e: Entry): Release
    requires e.Entry? && e.tag.Text? && e.url.Text? && e.published.Text? && Published(e.published.text)
  {
    Release(e.tag.text, e.url.text, e.published.text, InstantOf(e.published.text),
            if e.name.Text? then e.name.text else "", if e.body.Text? then e.body.text else "")
  }

  datatype Listing = Accepted(releases: seq<Release>) | Refused(problem: Problem)

  function Tags(releases: seq<Release>): set<string> {
    set r <- releases :: r.tag
  }

  /** The records a listing is read as, in order; the first bad record refuses it. */
  function Read(entries: seq<Entry>, done: seq<Release>, repository: string): Listing
    decreases |entries|
  {
    if entries == [] then Accepted(done)
    else
      var v := Judge(entries[0], Tags(done), repository);
      if v.Bad? then Refused(v.problem)
      else Read(entries[1..], if v.Passed? then done + [ReleaseOf(entries[0])] else done, repository)
  }

  predicate Dated(r: Release) {
    Published(r.published) && r.date == InstantOf(r.published)
  }

  predicate Sound(releases: seq<Release>) {
    && (forall k :: 0 <= k < |releases| ==> StableTag(releases[k].tag) && Dated(releases[k]))
    && (forall i, j :: 0 <= i < j < |releases| ==> releases[i].tag != releases[j].tag)
  }

  lemma {:induction false} ReadIsSound(entries: seq<Entry>, done: seq<Release>, repository: string)
    requires Sound(done)
    ensures Read(entries, done, repository).Accepted? ==> Sound(Read(entries, done, repository).releases)
    decreases |entries|
  {
    if entries != [] {
      var v := Judge(entries[0], Tags(done), repository);
      if v.Passed? {
        AddedIsSound(done, entries[0], repository);
        ReadIsSound(entries[1..], done + [ReleaseOf(entries[0])], repository);
      } else if v.Skipped? {
        ReadIsSound(entries[1..], done, repository);
      }
    }
  }

  // ------------------------------------------------------------------ //
  // What a listing shows, record by record
  // ------------------------------------------------------------------ //

  /** Neither a draft nor a prerelease. */
  predicate Public(e: Entry) {
    e.Entry? && e.draft == Flag(false) && e.prerelease == Flag(false)
  }

  /** A record that is to be shown, if it is well-formed. */
  predicate Candidate(e: Entry) {
    Public(e) && e.tag.Text? && StableTag(e.tag.text)
  }

  /** An earlier record is shown under the same tag. */
  predicate Repeats(entries: seq<Entry>, k: nat)
    requires k < |entries|
  {
    Candidate(entries[k]) && exists j :: 0 <= j < k && Candidate(entries[j]) && entries[j].tag == entries[k].tag
  }

  /** Record `k` breaks this rule. */
  predicate Breaks(entries: seq<Entry>, k: nat, repository: string, rule: Problem)
    requires k < |entries|
  {
    var e := entries[k];
    match rule
    case InvalidRecord => e.Malformed?
    case NoVisibility => e.Entry? && !(e.draft.Flag? && e.prerelease.Flag?)
    case NoTag => Public(e) && !e.tag.Text?
    case DuplicateTag => Repeats(entries, k)
    case WrongUrl => Candidate(e) && e.url != Text("https://github.com/" + repository + "/releases/tag/" + e.tag.text)
    case WrongDate => Candidate(e) && !(e.published.Text? && Published(e.published.text))
    case WrongText => Candidate(e) && !((e.name.Null? || e.name.Text?) && (e.body.Null? || e.body.Text?))
    case _ => false
  }

  ghost predicate Broken(entries: seq<Entry>, k: nat, repository: string)
    requires k < |entries|
  {
    exists rule {:trigger Breaks(entries, k, repository, rule)} :: Breaks(entries, k, repository, rule)
  }

  /** The release shows the record: absent or null texts are empty. */
  predicate ShowsRecord(r: Release, e: Entry) {
    && e.Entry? && e.tag == Text(r.tag) && e.url == Text(r.url) && e.published == Text(r.published) && Dated(r)
    && r.name == (if e.name.Text? then e.name.text else "")
    && r.body == (if e.body.Text? then e.body.text else "")
  }

  /** Exactly the candidates are shown. */
  ghost predicate ShowsAll(releases: seq<Release>, entries: seq<Entry>) {
    ShowsEach(releases, entries) && ShowsOnly(releases, entries)
  }

  ghost predicate Tagged(entries: seq<Entry>, tag: string) {
    exists j :: 0 <= j < |entries| && Candidate(entries[j]) && entries[j].tag == Text(tag)
  }

  lemma TagIsOfCandidate(releases: seq<Release>, entries: seq<Entry>, r: Release)
    requires ShowsAll(releases, entries) && r in releases
    ensures Tagged(entries, r.tag)
  {
    var e :| e in entries && Candidate(e) && ShowsRecord(r, e);
    var j :| 0 <= j < |entries| && entries[j] == e;
  }

  lemma CandidateHasTag(releases: seq<Release>, entries: seq<Entry>, j: nat)
    requires ShowsAll(releases, entries) && j < |entries| && Candidate(entries[j])
    ensures entries[j].tag.text in Tags(releases)
  {
    assert entries[j] in entries;
    var r :| r in releases && ShowsRecord(r, entries[j]);
    assert r.tag in Tags(releases);
  }

  lemma TagsAreCandidates(releases: seq<Release>, entries: seq<Entry>, tag: string)
    requires ShowsAll(releases, entries)
    ensures tag in Tags(releases) <==> Tagged(entries, tag)
  {
    if tag in Tags(releases) {
      var r :| r in releases && r.tag == tag;
      TagIsOfCandidate(releases, entries, r);
    }
    if Tagged(entries, tag) {
      var j :| 0 <= j < |entries| && Candidate(entries[j]) && entries[j].tag == Text(tag);
      CandidateHasTag(releases, entries, j);
    }
  }

  /** What `Judge` says of the next record is what the rules say of it. */
  lemma JudgedByRules(entries: seq<Entry>, i: nat, done: seq<Release>, repository: string)
    requires i < |entries| && ShowsAll(done, entries[..i])
    ensures var v := Judge(entries[i], Tags(done), repository);
            && (v.Bad? ==> Breaks(entries, i, repository, v.problem))
            && (!v.Bad? ==> !Broken(entries, i, repository))
            && (!v.Bad? ==> (v.Passed? <==> Candidate(entries[i])))
  {
    var e := entries[i];
    if Candidate(e) {
      TagsAreCandidates(done, entries[..i], e.tag.text);
      RepeatsIff(entries, i);
    }
  }

  lemma RepeatsIff(entries: seq<Entry>, i: nat)
    requires i < |entries| && Candidate(entries[i])
    ensures Repeats(entries, i) <==> Tagged(entries[..i], entries[i].tag.text)
  {
    if Repeats(entries, i) {
      var j :| 0 <= j < i && Candidate(entries[j]) && entries[j].tag == entries[i].tag;
      assert entries[..i][j] == entries[j];
    }
  }

  /** Each candidate is shown. */
  ghost predicate ShowsEach(releases: seq<Release>, entries: seq<Entry>) {
    forall e :: e in entries && Candidate(e) ==> exists r :: r in releases && ShowsRecord(r, e)
  }

  /** Nothing else is. */
  ghost predicate ShowsOnly(releases: seq<Release>, entries: seq<Entry>) {
    forall r :: r in releases ==> exists e :: e in entries && Candidate(e) && ShowsRecord(r, e)
  }

  lemma ShowsEachMore(done: seq<Release>, entries: seq<Entry>, e: Entry, all: seq<Release>)
    requires ShowsEach(done, entries) && done <= all
    requires Candidate(e) ==> exists r :: r in all && ShowsRecord(r, e)
    ensures ShowsEach(all, entries + [e])
  {
    forall x | x in entries + [e] && Candidate(x) ensures exists r :: r in all && ShowsRecord(r, x) {
      if x in entries {
        var r :| r in done && ShowsRecord(r, x);
        assert r in all;
      }
    }
  }

  lemma ShowsOnlyMore(done: seq<Release>, entries: seq<Entry>, e: Entry, all: seq<Release>)
    requires ShowsOnly(done, entries)
    requires forall r :: r in all ==> r in done || (Candidate(e) && ShowsRecord(r, e))
    ensures ShowsOnly(all, entries + [e])
  {
    forall r | r in all ensures exists x :: x in entries + [e] && Candidate(x) && ShowsRecord(r, x) {
      if r in done {
        var x :| x in entries && Candidate(x) && ShowsRecord(r, x);
        assert x in entries + [e];
      } else {
        assert e in entries + [e];
      }
    }
  }

  lemma ShowsOneMore(done: seq<Release>, entries: seq<Entry>, e: Entry, shown: bool)
    requires ShowsAll(done, entries) && (shown <==> Candidate(e))
    requires shown ==> e.url.Text? && e.published.Text? && Published(e.published.text)
    ensures ShowsAll(if shown then done + [ReleaseOf(e)] else done, entries + [e])
  {
    var all := if shown then done + [ReleaseOf(e)] else done;
    if shown { assert ReleaseOf(e) in all && ShowsRecord(ReleaseOf(e), e); }
    ShowsEachMore(done, entries, e, all);
    ShowsOnlyMore(done, entries, e, all);
  }

  lemma {:induction false} ReadByRules(entries: seq<Entry>, i: nat, done: seq<Release>, repository: string)
    requires i <= |entries| && ShowsAll(done, entries[..i])
    ensures var r := Read(entries[i..], done, repository);
            && (r.Accepted? <==> forall k :: i <= k < |entries| ==> !Broken(entries, k, repository))
            && (r.Accepted? ==> ShowsAll(r.releases, entries))
            && (r.Refused? ==> exists k :: i <= k < |entries| && Breaks(entries, k, repository, r.problem)
                                 && forall j :: i <= j < k ==> !Broken(entries, j, repository))
    decreases |entries| - i
  {
    if i == |entries| {
      assert entries[..i] == entries;
    } else {
      JudgedByRules(entries, i, done, repository);
      var v := Judge(entries[i], Tags(done), repository);
      if !v.Bad? {
        assert entries[i..][1..] == entries[i + 1..] && entries[..i + 1] == entries[..i] + [entries[i]];
        ShowsOneMore(done, entries[..i], entries[i], v.Passed?);
        ReadByRules(entries, i + 1, if v.Passed? then done + [ReleaseOf(entries[i])] else done, repository);
      } else {
        assert Breaks(entries, i, repository, v.problem) && Broken(entries, i, repository);
      }
    }
  }

  /** A listing is accepted if and only if no record breaks a rule, and then shows exactly its candidates. */
  lemma ListingIsShown(entries: seq<Entry>, repository: string)
    ensures var r := Read(entries, [], repository);
            && (r.Accepted? <==> forall k :: 0 <= k < |entries| ==> !Broken(entries, k, repository))
            && (r.Accepted? ==> ShowsAll(r.releases, entries))
            && (r.Refused? ==> exists k :: 0 <= k < |entries| && Breaks(entries, k, repository, r.problem)
                                 && forall j :: 0 <= j < k ==> !Broken(entries, j, repository))
  {
    assert entries[0..] == entries;
    ReadByRules(entries, 0, [], repository);
  }

  // ------------------------------------------------------------------ //
  // The order
  // ------------------------------------------------------------------ //

  /** `a` comes after `b` by publication date and then tag, as texts. */
  predicate Later(a: Release, b: Release) {
    Less(b.published, a.published) || (b.published == a.published && Less(b.tag, a.tag))
  }

  lemma LaterIsTotal(a: Release, b: Release)
    ensures a.tag != b.tag ==> Later(a, b) || Later(b, a)
    ensures !(Later(a, b) && Later(b, a))
  {
    LessTrichotomy(a.published, b.published);
    LessTrichotomy(a.tag, b.tag);
  }

  lemma LaterIsTransitive(a: Release, b: Release, c: Release)
    requires Later(a, b) && Later(b, c)
    ensures Later(a, c)
  {
    LessTrichotomy(b.published, c.published);
    LessTrichotomy(a.published, b.published);
    if Less(c.published, b.published) && Less(b.published, a.published) {
      LessTransitive(c.published, b.published, a.published);
    }
    if c.published == b.published == a.published { LessTransitive(c.tag, b.tag, a.tag); }
  }

  predicate NewestFirst(releases: seq<Release>) {
    forall i, j :: 0 <= i < j < |releases| ==> Later(releases[i], releases[j])
  }

  /** `stable.sort(key=..., reverse=True)` */
  method SortNewestFirst(releases: seq<Release>) returns (sorted: seq<Release>)
    requires Sound(releases)
    ensures multiset(sorted) == multiset(releases) && NewestFirst(sorted)
  {
    sorted := [];
    for k := 0 to |releases|
      invariant multiset(sorted) == multiset(releases[..k]) && NewestFirst(sorted)
    {
      assert releases[..k + 1] == releases[..k] + [releases[k]];
      NoTagYet(releases, k, sorted);
      sorted := InsertNewestFirst(sorted, releases[k]);
    }
    assert releases[..|releases|] == releases;
  }

  lemma NoTagYet(releases: seq<Release>, k: nat, sorted: seq<Release>)
    requires Sound(releases) && k < |releases| && multiset(sorted) == multiset(releases[..k])
    ensures forall r :: r in sorted ==> r.tag != releases[k].tag
  {
    SameMembers(sorted, releases[..k]);
    forall r | r in sorted ensures r.tag != releases[k].tag {
      assert r in releases[..k];
      var i :| 0 <= i < k && releases[..k][i] == r;
      assert releases[i] == r;
    }
  }

  method InsertNewestFirst(releases: seq<Release>, x: Release) returns (r: seq<Release>)
    requires NewestFirst(releases) && forall y :: y in releases ==> y.tag != x.tag
    ensures multiset(r) == multiset(releases) + multiset{x} && NewestFirst(r)
  {
    var p := 0;
    while p < |releases| && Later(releases[p], x)
      invariant p <= |releases| && forall k :: 0 <= k < p ==> Later(releases[k], x)
    {
      p := p + 1;
    }
    forall k | p <= k < |releases| ensures Later(x, releases[k]) {
      LaterIsTotal(releases[p], x);
      assert releases[p] in releases;
      if k > p { LaterIsTransitive(x, releases[p], releases[k]); }
    }
    InsertedInOrder(releases, p, x);
    InsertedMembers(releases, p, x);
    r := releases[..p] + [x] + releases[p..];
  }

  lemma InsertedInOrder(releases: seq<Release>, p: nat, x: Release)
    requires p <= |releases| && NewestFirst(releases)
    requires (forall k :: 0 <= k < p ==> Later(releases[k], x)) && forall k :: p <= k < |releases| ==> Later(x, releases[k])
    ensures NewestFirst(releases[..p] + [x] + releases[p..])
  {
    InsertedAt(releases, p, x, releases[..p] + [x] + releases[p..]);
  }

  predicate Highest(releases: seq<Release>, k: int) {
    && 0 <= k < |releases|
    && (forall j :: 0 <= j < |releases| ==> StableTag(releases[j].tag))
    && forall j :: 0 <= j < |releases| && j != k ==> Higher(TripleOf(releases[k].tag), TripleOf(releases[j].tag))
  }

  /** `max(triples)`, when no two are equal. */
  method MaxTriple(triples: seq<Triple>) returns (k: nat)
    requires triples != [] && forall i, j :: 0 <= i < j < |triples| ==> triples[i] != triples[j]
    ensures k < |triples| && forall j :: 0 <= j < |triples| && j != k ==> Higher(triples[k], triples[j])
  {
    k := 0;
    for i := 1 to |triples|
      invariant k < i && forall j :: 0 <= j < i && j != k ==> Higher(triples[k], triples[j])
    {
      if Higher(triples[i], triples[k]) { k := i; }
    }
  }

  lemma DifferentTriples(a: Release, b: Release)
    requires StableTag(a.tag) && StableTag(b.tag) && a.tag != b.tag
    ensures TripleOf(a.tag) != TripleOf(b.tag)
  {
    TripleOfTag(a.tag);
    TripleOfTag(b.tag);
  }

  function TripleOfRelease(r: Release): Triple
    requires StableTag(r.tag)
  {
    TripleOf(r.tag)
  }

  /** `max(stable, key=...)`: two tags never have the same triple, so there is one highest. */
  method FindHighest(releases: seq<Release>) returns (k: nat)
    requires Sound(releases) && releases != []
    ensures Highest(releases, k)
  {
    var triples := [];
    for i := 0 to |releases|
      invariant |triples| == i && forall j :: 0 <= j < i ==> triples[j] == TripleOfRelease(releases[j])
    {
      triples := triples + [TripleOfRelease(releases[i])];
    }
    forall i, j | 0 <= i < j < |triples| ensures triples[i] != triples[j] {
      DifferentTriples(releases[i], releases[j]);
    }
    k := MaxTriple(triples);
    forall j | 0 <= j < |releases| && j != k ensures Higher(TripleOf(releases[k].tag), TripleOf(releases[j].tag)) {
      assert Higher(triples[k], triples[j]);
    }
  }

  datatype Result = Stable(releases: seq<Release>) | Rejected(problem: Problem)

  /** A listing that can be shown: its repository and records are accepted, and some release is stable. */
  predicate Showable(entries: seq<Entry>, repository: string) {
    Repository(repository) && Read(entries, [], repository).Accepted? && Read(entries, [], repository).releases != []
  }

  /** The accepted records, the highest version first and the others by date. */
  ghost predicate Chosen(releases: seq<Release>, entries: seq<Entry>, repository: string) {
    && Showable(entries, repository) && releases != []
    && Sound(releases)
    && multiset(releases) == multiset(Read(entries, [], repository).releases)
    && Highest(releases, 0)
    && NewestFirst(releases[1..])
  }

  lemma FirstIsLatest(releases: seq<Release>, r: Release)
    requires NewestFirst(releases) && r in releases
    ensures r == releases[0] || Later(releases[0], r)
  {
  }

  lemma {:induction false} NewestFirstIsUnique(a: seq<Release>, b: seq<Release>)
    requires NewestFirst(a) && NewestFirst(b) && multiset(a) == multiset(b)
    ensures a == b
  {
    SameMembers(a, b);
    if a != [] {
      SameMembers(b, a);
      FirstIsLatest(a, b[0]);
      FirstIsLatest(b, a[0]);
      LaterIsTotal(a[0], b[0]);
      SameRest(a, b);
      NewestFirstIsUnique(a[1..], b[1..]);
    }
  }

  lemma FirstIsHighest(releases: seq<Release>, r: Release)
    requires Highest(releases, 0) && r in releases
    ensures StableTag(r.tag) && (r == releases[0] || Higher(TripleOf(releases[0].tag), TripleOf(r.tag)))
  {
  }

  /** A listing fixes what is shown, down to the order. */
  lemma ChosenIsUnique(a: seq<Release>, b: seq<Release>, entries: seq<Entry>, repository: string)
    requires Chosen(a, entries, repository) && Chosen(b, entries, repository)
    ensures a == b
  {
    SameMembers(a, b);
    SameMembers(b, a);
    FirstIsHighest(a, b[0]);
    FirstIsHighest(b, a[0]);
    SameRest(a, b);
    NewestFirstIsUnique(a[1..], b[1..]);
  }

  /** The releases as the site lists them. */
  /** The records in order, up to the first bad one. */
  method ReadAll(entries: seq<Entry>, repository: string) returns (r: Listing)
    ensures r == Read(entries, [], repository) && (r.Accepted? ==> Sound(r.releases))
  {
    var stable := [];
    for k := 0 to |entries|
      invariant Sound(stable)
      invariant Read(entries[k..], stable, repository) == Read(entries, [], repository)
    {
      assert entries[k..][0] == entries[k] && entries[k..][1..] == entries[k + 1..];
      var v := Judge(entries[k], Tags(stable), repository);
      if v.Bad? { return Refused(v.problem); }
      if v.Passed? {
        AddedIsSound(stable, entries[k], repository);
        stable := stable + [ReleaseOf(entries[k])];
      }
    }
    r := Accepted(stable);
  }

  method Choose(entries: seq<Entry>, repository: string) returns (r: Result)
    ensures r.Stable? <==> Showable(entries, repository)
    ensures r.Rejected? ==> r.problem == if !Repository(repository) then InvalidRepository
                                         else if Read(entries, [], repository).Refused? then Read(entries, [], repository).problem
                                         else NoReleases
    ensures r.Stable? ==> Chosen(r.releases, entries, repository)
    // The same without the reading: the rules, what is shown, and in which order.
    ensures r.Stable? <==>
              && Repository(repository) && (forall k :: 0 <= k < |entries| ==> !Broken(entries, k, repository))
              && exists e :: e in entries && Candidate(e)
    ensures r.Rejected? && Repository(repository) && r.problem != NoReleases ==>
              exists k :: 0 <= k < |entries| && Breaks(entries, k, repository, r.problem)
                && forall j :: 0 <= j < k ==> !Broken(entries, j, repository)
    ensures r.Stable? ==> ShowsAll(r.releases, entries) && ByVersionThenDate(r.releases)
  {
    ListingIsShown(entries, repository);
    if !Repository(repository) { return Rejected(InvalidRepository); }
    var listing := ReadAll(entries, repository);
    if listing.Refused? { return Rejected(listing.problem); }
    var stable := listing.releases;
    if stable == [] {
      NothingIsShown(entries);
      return Rejected(NoReleases);
    }
    var sorted := SortNewestFirst(stable);
    ReorderedIsSound(stable, sorted);
    var latest := FindHighest(sorted);
    HighestFirst(sorted, latest);
    r := Stable(ToFront(sorted, latest));
    SameIsShown(stable, r.releases, entries);
    ChosenByVersionThenDate(r.releases);
  }

  lemma NothingIsShown(entries: seq<Entry>)
    requires ShowsAll([], entries)
    ensures !exists e :: e in entries && Candidate(e)
  {
  }

  lemma SameIsShown(a: seq<Release>, b: seq<Release>, entries: seq<Entry>)
    requires ShowsAll(a, entries) && a != [] && multiset(a) == multiset(b)
    ensures ShowsAll(b, entries) && exists e :: e in entries && Candidate(e)
  {
    SameMembers(a, b);
    SameMembers(b, a);
    assert a[0] in a;
    forall e | e in entries && Candidate(e) ensures exists r :: r in b && ShowsRecord(r, e) {
      var r :| r in a && ShowsRecord(r, e);
      assert r in b;
    }
  }

  /** First by major, then by minor, then by patch number. */
  predicate NewerVersion(a: Triple, b: Triple) {
    || a.major > b.major
    || (a.major == b.major && a.minor > b.minor)
    || (a.major == b.major && a.minor == b.minor && a.patch > b.patch)
  }

  /** The newest version comes first; the others go back in time, and at one time back through the tags. */
  ghost predicate ByVersionThenDate(releases: seq<Release>) {
    && (forall r :: r in releases ==> StableTag(r.tag) && Dated(r))
    && (forall j :: 0 < j < |releases| ==> NewerVersion(TripleOf(releases[0].tag), TripleOf(releases[j].tag)))
    && forall i, j :: 0 < i < j < |releases| ==>
         || Before(releases[j].date, releases[i].date)
         || (releases[j].published == releases[i].published && Less(releases[j].tag, releases[i].tag))
  }

  lemma ChosenByVersionThenDate(releases: seq<Release>)
    requires Sound(releases) && releases != [] && Highest(releases, 0) && NewestFirst(releases[1..])
    ensures ByVersionThenDate(releases)
  {
    forall i, j | 0 < i < j < |releases|
      ensures Before(releases[j].date, releases[i].date)
              || (releases[j].published == releases[i].published && Less(releases[j].tag, releases[i].tag))
    {
      assert releases[1..][i - 1] == releases[i] && releases[1..][j - 1] == releases[j];
      TextOrderIsTimeOrder(releases[j].published, releases[i].published);
    }
  }

  lemma AddedIsSound(done: seq<Release>, e: Entry, repository: string)
    requires Sound(done) && Judge(e, Tags(done), repository).Passed?
    ensures Sound(done + [ReleaseOf(e)])
  {
    forall k | 0 <= k < |done| ensures done[k].tag != e.tag.text { assert done[k] in done; }
  }

  lemma ReorderedIsSound(a: seq<Release>, b: seq<Release>)
    requires Sound(a) && multiset(a) == multiset(b) && NewestFirst(b)
    ensures Sound(b) && |a| == |b|
  {
    assert |a| == |multiset(a)| == |multiset(b)| == |b|;
    forall k | 0 <= k < |b| ensures StableTag(b[k].tag) && Dated(b[k]) {
      assert b[k] in multiset(a);
    }
    forall i, j | 0 <= i < j < |b| ensures b[i].tag != b[j].tag {
      assert b[i] in multiset(a) && b[j] in multiset(a);
      LaterIsTotal(b[i], b[j]);
      assert Later(b[i], b[j]);
    }
  }

  /** Element `k` moved to the front. */
  function ToFront<T>(s: seq<T>, k: nat): (r: seq<T>)
    requires k < |s|
  {
    [s[k]] + (s[..k] + s[k + 1..])
  }

  function Source(k: nat, j: nat): nat {
    if j == 0 then k else if j <= k then j - 1 else j
  }

  lemma ToFrontAt<T>(s: seq<T>, k: nat)
    requires k < |s|
    ensures |ToFront(s, k)| == |s| && multiset(ToFront(s, k)) == multiset(s)
    ensures forall j :: 0 <= j < |s| ==> ToFront(s, k)[j] == s[Source(k, j)]
  {
    assert s == s[..k] + [s[k]] + s[k + 1..];
  }

  lemma StillSound(sorted: seq<Release>, k: nat, r: seq<Release>)
    requires Sound(sorted) && k < |sorted| == |r| && forall j :: 0 <= j < |r| ==> r[j] == sorted[Source(k, j)]
    ensures Sound(r)
  {
    forall i, j | 0 <= i < j < |r| ensures r[i].tag != r[j].tag {
      var a, b := Source(k, i), Source(k, j);
      assert sorted[if a < b then a else b].tag != sorted[if a < b then b else a].tag;
    }
  }

  lemma StillHighest(sorted: seq<Release>, k: nat, r: seq<Release>)
    requires Highest(sorted, k) && |sorted| == |r| && forall j :: 0 <= j < |r| ==> r[j] == sorted[Source(k, j)]
    ensures Highest(r, 0)
  {
    forall j | 0 <= j < |r| ensures StableTag(r[j].tag) { assert r[j] == sorted[Source(k, j)]; }
    forall j | 0 < j < |r| ensures Higher(TripleOf(r[0].tag), TripleOf(r[j].tag)) {
      assert r[j] == sorted[Source(k, j)];
    }
  }

  lemma StillNewestFirst(sorted: seq<Release>, k: nat, r: seq<Release>)
    requires NewestFirst(sorted) && k < |sorted| == |r| && forall j :: 0 <= j < |r| ==> r[j] == sorted[Source(k, j)]
    ensures NewestFirst(r[1..])
  {
    forall i, j | 0 <= i < j < |r| - 1 ensures Later(r[1..][i], r[1..][j]) {
      assert Later(sorted[Source(k, i + 1)], sorted[Source(k, j + 1)]);
    }
  }

  lemma HighestFirst(sorted: seq<Release>, k: nat)
    requires Sound(sorted) && NewestFirst(sorted) && Highest(sorted, k)
    ensures var r := ToFront(sorted, k);
            Sound(r) && multiset(r) == multiset(sorted) && Highest(r, 0) && NewestFirst(r[1..])
  {
    ToFrontAt(sorted, k);
    StillSound(sorted, k, ToFront(sorted, k));
    StillHighest(sorted, k, ToFront(sorted, k));
    StillNewestFirst(sorted, k, ToFront(sorted, k));
  }
}
