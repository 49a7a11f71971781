/**
 * The meeting-side logic of src/services/fathomService.js: normalising a
 * meeting of the Fathom API (`processMeetingData`), the client-side domain
 * and company filters with their page objects, and the page-accumulation
 * loop of `syncAllMeetings`.
 *
 * Meetings are decoded JSON values. A property read on `null`, or a string
 * method called on a value that is not a string, throws a TypeError; these
 * are the `Thrown` outcomes. The HTTP client is the parameter `fetch`, from
 * the optional cursor to the response body; its own errors are `Thrown`.
 */
module FathomService {
  import opened Common
  import opened JsStrings
  import opened JsValues
  import opened JsSets
  import opened TranscriptCascade

  const TypeErrorText: string := "TypeError"

  // ---------------------------------------------------------------------------
  // processMeetingData
  // ---------------------------------------------------------------------------

  datatype Participant = Participant(name: Prop, email: Prop, domain: Prop, isHost: bool)

  datatype ProcessedMeeting = ProcessedMeeting(
    fathomId: Prop,
    title: Prop,
    startTime: Prop,
    endTime: Prop,
    duration: Prop,
    recordingUrl: Prop,
    transcript: Prop,
    summary: Prop,
    participants: seq<Participant>,
    domains: seq<string>)

  /** `email?.split('@')[1]`: the text between the first and the second `@`, if there is a first. */
  function EmailDomain(email: Prop): Outcome<Prop> {
    match email
    case Undefined => Ok(Undefined)
    case Defined(JNull) => Ok(Undefined)
    case Defined(JStr(s)) =>
      var parts := Split(s, "@");
      if |parts| >= 2 then Ok(Lit(parts[1])) else Ok(Undefined)
    case _ => Thrown(TypeErrorText)
  }

  /** One element of `participants.map(p => ({ name, email, domain, isHost }))`. */
  function ParticipantOf(p: Json): Outcome<Participant> {
    if p == JNull then Thrown(TypeErrorText)
    else match EmailDomain(Get(p, "email"))
      case Thrown(m) => Thrown(m)
      case Ok(domain) => Ok(Participant(Get(p, "name"), Get(p, "email"), domain, Get(p, "is_external") == Defined(JBool(false))))
  }

  /** The participants in invitee order; the first invitee that throws aborts. */
  function ParticipantsOf(invitees: seq<Json>): (r: Outcome<seq<Participant>>)
    ensures r.Ok? ==> |r.value| == |invitees|
    decreases |invitees|
  {
    if |invitees| == 0 then Ok([])
    else match ParticipantsOf(invitees[..|invitees| - 1])
      case Thrown(m) => Thrown(m)
      case Ok(init) =>
        match ParticipantOf(invitees[|invitees| - 1])
        case Thrown(m) => Thrown(m)
        case Ok(p) => Ok(init + [p])
  }

  /** `.filter(Boolean)` on the domains: only non-empty texts remain. */
  function DomainText(p: Participant): Option<string> {
    if p.domain.Defined? && p.domain.value.JStr? && p.domain.value.s != "" then Some(p.domain.value.s) else None
  }

  /**
   * `processMeetingData(meeting)`. The domains are mapped from the same
   * invitees with the same `p.email?.split('@')[1]` before the participants
   * are, so they throw on the same invitee; they are read here from the
   * participants' domains, which are equal.
   */
  function ProcessMeetingData(meeting: Json): Outcome<ProcessedMeeting> {
    if meeting == JNull then Thrown(TypeErrorText)
    else
      var invitees := OrElse(Get(meeting, "calendar_invitees"), Defined(JArr([]))).value;
      if !invitees.JArr? then Thrown(TypeErrorText)
      else match ParticipantsOf(invitees.elems)
        case Thrown(m) => Thrown(m)
        case Ok(participants) =>
          Ok(ProcessedMeeting(
            OrElse(Get(meeting, "id"), Get(meeting, "url")),
            OrElse(Get(meeting, "title"), Get(meeting, "meeting_title")),
            OrElse(Get(meeting, "scheduled_start_time"), Get(meeting, "recording_start_time")),
            OrElse(Get(meeting, "scheduled_end_time"), Get(meeting, "recording_end_time")),
            Get(meeting, "duration"),
            Get(meeting, "url"),
            OrElse(Get(meeting, "transcript"), Lit("")),
            OrElse(OptAccess(Get(meeting, "default_summary"), "markdown_formatted"), Lit("")),
            participants,
            Distinct(FilterMap(participants, DomainText))))
  }

  /** An invitee the mapping cannot read: `null`, or an email that is present but neither `null` nor a string. */
  predicate Unreadable(p: Json) {
    p == JNull || (Get(p, "email").Defined? && Get(p, "email").value != JNull && !Get(p, "email").value.JStr?)
  }

  lemma ParticipantOfSpec(p: Json)
    ensures ParticipantOf(p).Thrown? <==> Unreadable(p)
    ensures ParticipantOf(p).Ok? ==>
      ParticipantOf(p).value.email == Get(p, "email") && ParticipantOf(p).value.name == Get(p, "name") &&
      (ParticipantOf(p).value.isHost <==> Get(p, "is_external") == Defined(JBool(false)))
  {
  }

  /** The mapping fails exactly when some invitee is unreadable; otherwise it keeps invitee order. */
  lemma {:induction false} ParticipantsOfSpec(invitees: seq<Json>)
    ensures ParticipantsOf(invitees).Thrown? <==> exists k :: 0 <= k < |invitees| && Unreadable(invitees[k])
    ensures ParticipantsOf(invitees).Ok? ==> forall k :: 0 <= k < |invitees| ==>
      ParticipantOf(invitees[k]) == Ok(ParticipantsOf(invitees).value[k])
    decreases |invitees|
  {
    if |invitees| > 0 {
      var init := invitees[..|invitees| - 1];
      var last := invitees[|invitees| - 1];
      ParticipantsOfSpec(init);
      ParticipantOfSpec(last);
      assert forall k :: 0 <= k < |init| ==> init[k] == invitees[k];
      if ParticipantsOf(init).Thrown? {
        var k :| 0 <= k < |init| && Unreadable(init[k]);
        assert Unreadable(invitees[k]);
      }
    }
  }

  /**
   * Processing throws exactly for a `null` meeting, a truthy invitee list
   * that is not an array, or an unreadable invitee; otherwise there is one
   * participant per invitee, in order, with the invitee's name and email.
   */
  lemma ProcessMeetingDataSpec(meeting: Json)
    ensures ProcessMeetingData(meeting).Thrown? <==>
      meeting == JNull ||
      (TruthyProp(Get(meeting, "calendar_invitees")) && !Get(meeting, "calendar_invitees").value.JArr?) ||
      (exists k :: 0 <= k < |Invitees(meeting)| && Unreadable(Invitees(meeting)[k]))
    ensures ProcessMeetingData(meeting).Ok? ==>
      var ps := ProcessMeetingData(meeting).value.participants;
      |ps| == |Invitees(meeting)| &&
      forall k :: 0 <= k < |ps| ==>
        ps[k].name == Get(Invitees(meeting)[k], "name") && ps[k].email == Get(Invitees(meeting)[k], "email") &&
        (ps[k].isHost <==> Get(Invitees(meeting)[k], "is_external") == Defined(JBool(false)))
  {
    if meeting != JNull {
      var invitees := OrElse(Get(meeting, "calendar_invitees"), Defined(JArr([]))).value;
      if invitees.JArr? {
        assert invitees.elems == Invitees(meeting);
        ParticipantsOfSpec(invitees.elems);
        if ParticipantsOf(invitees.elems).Ok? {
          forall k | 0 <= k < |invitees.elems| {
            ParticipantOfSpec(invitees.elems[k]);
          }
        }
      }
    }
  }

  /** A meeting without invitees has no participants and no domains. */
  lemma NoInvitees(meeting: Json)
    requires meeting.JObj? && !TruthyProp(Get(meeting, "calendar_invitees"))
    ensures ProcessMeetingData(meeting).Ok?
    ensures ProcessMeetingData(meeting).value.participants == []
    ensures ProcessMeetingData(meeting).value.domains == []
  {
    assert FilterMap([], DomainText) == [];
    assert AddAll([], []) == [];
  }

  /**
   * A domain listed after another first appears at a later participant:
   * every participant with the later domain has one with the earlier
   * domain before it.
   */
  lemma DomainsOrdered(ps: seq<Participant>, i: nat, j: nat, kj: nat)
    requires i < j < |Distinct(FilterMap(ps, DomainText))|
    requires kj < |ps| && ps[kj].domain == Lit(Distinct(FilterMap(ps, DomainText))[j])
    ensures exists ki :: 0 <= ki < kj && ps[ki].domain == Lit(Distinct(FilterMap(ps, DomainText))[i])
  {
    var texts := FilterMap(ps, DomainText);
    var ds := Distinct(texts);
    DomainListed(ps, ds[j]);
    FilterMapAt(ps, DomainText, kj);
    var pre := FilterMap(ps[..kj], DomainText);
    DistinctEarlier(texts, i, j, |pre|);
    FilterMapFromPrefix(ps, DomainText, kj, ds[i]);
  }

  /** A listed domain is a non-empty text, so a participant with that domain contributes it. */
  lemma DomainListed(ps: seq<Participant>, d: string)
    requires d in Distinct(FilterMap(ps, DomainText))
    ensures d != ""
  {
    var texts := FilterMap(ps, DomainText);
    DistinctSpec(texts);
    var m :| 0 <= m < |texts| && texts[m] == d;
    FilterMapFrom(ps, DomainText, m);
  }

  /**
   * The domains have no repetitions and no empty text, are exactly the
   * non-empty participant domains, and are listed in the order in which
   * they first appear among the participants.
   */
  lemma DomainsSpec(meeting: Json)
    requires ProcessMeetingData(meeting).Ok?
    ensures var r := ProcessMeetingData(meeting).value;
      NoDup(r.domains) &&
      (forall d :: d in r.domains ==> d != "") &&
      (forall d :: d in r.domains <==> exists k :: 0 <= k < |r.participants| && r.participants[k].domain == Lit(d) && d != "")
    ensures var r := ProcessMeetingData(meeting).value;
      forall i, j, kj :: 0 <= i < j < |r.domains| && 0 <= kj < |r.participants| && r.participants[kj].domain == Lit(r.domains[j]) ==>
        exists ki :: 0 <= ki < kj && r.participants[ki].domain == Lit(r.domains[i])
  {
    var r := ProcessMeetingData(meeting).value;
    assert r.domains == Distinct(FilterMap(r.participants, DomainText));
    DomainsMembers(r.participants);
    DomainsInOrder(r.participants);
  }

  /** The distinct non-empty domains of some participants, as sets go. */
  lemma DomainsMembers(ps: seq<Participant>)
    ensures var ds := Distinct(FilterMap(ps, DomainText));
      NoDup(ds) && (forall d :: d in ds ==> d != "") &&
      (forall d :: d in ds <==> exists k :: 0 <= k < |ps| && ps[k].domain == Lit(d) && d != "")
  {
    var texts := FilterMap(ps, DomainText);
    var ds := Distinct(texts);
    DistinctSpec(texts);
    forall d ensures d in ds <==> exists k :: 0 <= k < |ps| && ps[k].domain == Lit(d) && d != "" {
      if d in ds {
        var j :| 0 <= j < |texts| && texts[j] == d;
        FilterMapFrom(ps, DomainText, j);
      }
      if exists k :: 0 <= k < |ps| && ps[k].domain == Lit(d) && d != "" {
        var k :| 0 <= k < |ps| && ps[k].domain == Lit(d) && d != "";
        FilterMapHas(ps, DomainText, k);
      }
    }
  }

  /** The distinct domains of some participants follow their first appearances. */
  lemma DomainsInOrder(ps: seq<Participant>)
    ensures var ds := Distinct(FilterMap(ps, DomainText));
      forall i, j, kj :: 0 <= i < j < |ds| && 0 <= kj < |ps| && ps[kj].domain == Lit(ds[j]) ==>
        exists ki :: 0 <= ki < kj && ps[ki].domain == Lit(ds[i])
  {
    var ds := Distinct(FilterMap(ps, DomainText));
    forall i, j, kj | 0 <= i < j < |ds| && 0 <= kj < |ps| && ps[kj].domain == Lit(ds[j])
      ensures exists ki :: 0 <= ki < kj && ps[ki].domain == Lit(ds[i])
    {
      DomainsOrdered(ps, i, j, kj);
    }
  }

  /** The domain is what follows the only `@`. */
  lemma EmailDomainAfterAt(local: string, domain: string)
    requires NoChar(local, '@') && NoChar(domain, '@')
    ensures EmailDomain(Lit(local + "@" + domain)) == Ok(Lit(domain))
  {
    SplitAtFirst(local, "@", domain);
    NoOccurrence(domain, "@");
    IndexOfAbsent(domain, "@", 0);
  }

  /** With a second `@`, the domain stops there. */
  lemma EmailDomainUpToSecondAt(local: string, domain: string, rest: string)
    requires NoChar(local, '@') && NoChar(domain, '@')
    ensures EmailDomain(Lit(local + "@" + domain + "@" + rest)) == Ok(Lit(domain))
  {
    assert local + "@" + domain + "@" + rest == local + "@" + (domain + "@" + rest);
    SplitAtFirst(local, "@", domain + "@" + rest);
    SplitAtFirst(domain, "@", rest);
  }

  /** An email without `@` has no domain. */
  lemma EmailWithoutAt(email: string)
    requires NoChar(email, '@')
    ensures EmailDomain(Lit(email)) == Ok(Undefined)
  {
    NoOccurrence(email, "@");
    IndexOfAbsent(email, "@", 0);
  }

  // ---------------------------------------------------------------------------
  // The domain and company filters
  // ---------------------------------------------------------------------------

  /** Which client-side filter runs over the fetched page. */
  datatype Criterion = ByDomain(domain: string) | ByCompany(name: string)

  /** `p?.toLowerCase()`: nothing for `undefined` and `null`, a TypeError for other non-strings. */
  function LowerText(p: Prop): Outcome<Option<string>> {
    match p
    case Undefined => Ok(None)
    case Defined(JNull) => Ok(None)
    case Defined(JStr(s)) => Ok(Some(ToLower(s)))
    case _ => Thrown(TypeErrorText)
  }

  /** `x?.toLowerCase().includes(lc)` / `.endsWith(lc)` as a truth value. */
  function TextTest(p: Prop, lc: string, suffix: bool): Outcome<bool> {
    match LowerText(p)
    case Thrown(m) => Thrown(m)
    case Ok(None) => Ok(false)
    case Ok(Some(t)) => Ok(if suffix then EndsWith(t, lc) else Contains(t, lc))
  }

  /**
   * The callback of `calendar_invitees.some(...)`: for a domain the email's
   * suffix; for a company the email, then (only when that fails) the name.
   */
  function InviteeMatches(invitee: Json, c: Criterion): Outcome<bool> {
    if invitee == JNull then Thrown(TypeErrorText)
    else match c
      case ByDomain(domain) => TextTest(Get(invitee, "email"), ToLower(domain), true)
      case ByCompany(name) =>
        match TextTest(Get(invitee, "email"), ToLower(name), false)
        case Thrown(m) => Thrown(m)
        case Ok(true) => Ok(true)
        case Ok(false) => TextTest(Get(invitee, "name"), ToLower(name), false)
  }

  /** `Array.prototype.some`: stops at the first match or the first throw. */
  function SomeInvitee(invitees: seq<Json>, c: Criterion): Outcome<bool>
    decreases |invitees|
  {
    if |invitees| == 0 then Ok(false)
    else match InviteeMatches(invitees[0], c)
      case Thrown(m) => Thrown(m)
      case Ok(true) => Ok(true)
      case Ok(false) => SomeInvitee(invitees[1..], c)
  }

  /** `meeting.calendar_invitees?.some(...)`, falsy when the list is absent. */
  function InviteesMatch(meeting: Json, c: Criterion): Outcome<bool> {
    if meeting == JNull then Thrown(TypeErrorText)
    else match Get(meeting, "calendar_invitees")
      case Undefined => Ok(false)
      case Defined(JNull) => Ok(false)
      case Defined(JArr(invitees)) => SomeInvitee(invitees, c)
      case _ => Thrown(TypeErrorText)
  }

  /** The filter callback: for a company both tests run, then `titleMatch || participantMatch`. */
  function Matches(meeting: Json, c: Criterion): Outcome<bool> {
    match c
    case ByDomain(_) => InviteesMatch(meeting, c)
    case ByCompany(name) =>
      if meeting == JNull then Thrown(TypeErrorText)
      else match TextTest(Get(meeting, "title"), ToLower(name), false)
        case Thrown(m) => Thrown(m)
        case Ok(titleMatch) =>
          match InviteesMatch(meeting, c)
          case Thrown(m) => Thrown(m)
          case Ok(participantMatch) => Ok(titleMatch || participantMatch)
  }

  /** `items.filter(callback)`, in item order; the first throw aborts. */
  function FilterMeetings(items: seq<Json>, c: Criterion): (r: Outcome<seq<Json>>)
    ensures r.Ok? ==> |r.value| <= |items|
    decreases |items|
  {
    if |items| == 0 then Ok([])
    else match Matches(items[0], c)
      case Thrown(m) => Thrown(m)
      case Ok(keep) =>
        match FilterMeetings(items[1..], c)
        case Thrown(m) => Thrown(m)
        case Ok(rest) => Ok(if keep then [items[0]] + rest else rest)
  }

  datatype Page = Page(items: seq<Json>, total: nat, nextCursor: Prop)

  /** `getMeetingsByDomain` / `getMeetingsByCompany` after the request: filter the page and count it. */
  function SearchPage(data: Prop, c: Criterion): (r: Outcome<Page>)
    ensures r.Ok? ==> r.value.total == |r.value.items| && r.value.nextCursor == OptAccess(data, "next_cursor")
  {
    var items := OptAccess(data, "items");
    var filtered :=
      if items == Undefined || items == Defined(JNull) then Ok([])
      else if items.value.JArr? then FilterMeetings(items.value.elems, c)
      else Thrown(TypeErrorText);
    match filtered
    case Thrown(m) => Thrown(m)
    case Ok(kept) => Ok(Page(kept, |kept|, OptAccess(data, "next_cursor")))
  }

  /** The filter keeps exactly the meetings whose callback answers true, when no callback throws. */
  lemma {:induction false} FilterMeetingsSpec(items: seq<Json>, c: Criterion)
    requires forall k :: 0 <= k < |items| ==> Matches(items[k], c).Ok?
    ensures FilterMeetings(items, c).Ok?
    ensures forall m :: m in FilterMeetings(items, c).value <==> m in items && Matches(m, c) == Ok(true)
    decreases |items|
  {
    if |items| > 0 {
      assert forall k :: 0 <= k < |items[1..]| ==> items[1..][k] == items[k + 1];
      FilterMeetingsSpec(items[1..], c);
      assert forall m :: m in items <==> m == items[0] || m in items[1..];
    }
  }

  /** `some` answers whether some invitee matches, when no callback throws. */
  lemma {:induction false} SomeInviteeSpec(invitees: seq<Json>, c: Criterion)
    requires forall k :: 0 <= k < |invitees| ==> InviteeMatches(invitees[k], c).Ok?
    ensures SomeInvitee(invitees, c) == Ok(exists k :: 0 <= k < |invitees| && InviteeMatches(invitees[k], c) == Ok(true))
    decreases |invitees|
  {
    if |invitees| > 0 {
      var rest := invitees[1..];
      assert forall k :: 0 <= k < |rest| ==> rest[k] == invitees[k + 1];
      SomeInviteeSpec(rest, c);
      if InviteeMatches(invitees[0], c) == Ok(false) {
        assert (exists k :: 0 <= k < |invitees| && InviteeMatches(invitees[k], c) == Ok(true)) ==>
          exists k :: 0 <= k < |rest| && InviteeMatches(rest[k], c) == Ok(true);
      }
    }
  }

  /**
   * What `some` answers, whenever it answers: true only when some invitee's
   * callback answered true, false only when every callback answered false.
   * It answers whenever no callback throws.
   */
  lemma {:induction false} SomeInviteeOutcome(invitees: seq<Json>, c: Criterion)
    ensures SomeInvitee(invitees, c) == Ok(true) ==>
      exists k :: 0 <= k < |invitees| && InviteeMatches(invitees[k], c) == Ok(true)
    ensures SomeInvitee(invitees, c) == Ok(false) ==>
      forall k :: 0 <= k < |invitees| ==> InviteeMatches(invitees[k], c) == Ok(false)
    ensures (forall k :: 0 <= k < |invitees| ==> InviteeMatches(invitees[k], c).Ok?) ==> SomeInvitee(invitees, c).Ok?
    decreases |invitees|
  {
    if |invitees| > 0 {
      var rest := invitees[1..];
      assert forall k :: 0 <= k < |rest| ==> rest[k] == invitees[k + 1];
      SomeInviteeOutcome(rest, c);
      if InviteeMatches(invitees[0], c) == Ok(false) && SomeInvitee(rest, c) == Ok(true) {
        var k :| 0 <= k < |rest| && InviteeMatches(rest[k], c) == Ok(true);
        assert InviteeMatches(invitees[k + 1], c) == Ok(true);
      }
    }
  }

  /** A text, `null` or nothing: what `x?.toLowerCase()` reads without throwing. */
  predicate TextOrNothing(p: Prop) {
    p == Undefined || p.value.JStr? || p.value.JNull?
  }

  /**
   * An invitee the callback reads without throwing whatever it finds: not
   * `null`, an email that is a text, `null` or absent, and for the company
   * filter a name of the same kind.
   */
  predicate PlainInvitee(p: Json, c: Criterion) {
    p != JNull && TextOrNothing(Get(p, "email")) && (c.ByCompany? ==> TextOrNothing(Get(p, "name")))
  }

  function EmailText(p: Json): Option<string> {
    if Get(p, "email").Defined? && Get(p, "email").value.JStr? then Some(Get(p, "email").value.s) else None
  }

  function NameText(p: Json): Option<string> {
    if Get(p, "name").Defined? && Get(p, "name").value.JStr? then Some(Get(p, "name").value.s) else None
  }

  function TitleText(m: Json): Option<string> {
    if Get(m, "title").Defined? && Get(m, "title").value.JStr? then Some(Get(m, "title").value.s) else None
  }

  /**
   * A meeting the filter reads without throwing whatever it finds: not `null`,
   * for the company filter a title that is a text, `null` or absent, and an
   * invitee list that is absent, `null` or a list of plain invitees.
   */
  predicate PlainMeeting(m: Json, c: Criterion) {
    m != JNull &&
    (c.ByCompany? ==> TextOrNothing(Get(m, "title"))) &&
    (Get(m, "calendar_invitees") == Undefined || Get(m, "calendar_invitees") == Defined(JNull) ||
     (Get(m, "calendar_invitees").value.JArr? &&
      forall k :: 0 <= k < |Get(m, "calendar_invitees").value.elems| ==> PlainInvitee(Get(m, "calendar_invitees").value.elems[k], c)))
  }

  function Invitees(m: Json): seq<Json> {
    if Get(m, "calendar_invitees").Defined? && Get(m, "calendar_invitees").value.JArr? then Get(m, "calendar_invitees").value.elems else []
  }

  /** The domain callback answers whether the invitee's email, lowercased, ends with the lowercased domain; the name is never read. */
  lemma DomainInvitee(p: Json, domain: string)
    ensures InviteeMatches(p, ByDomain(domain)).Ok? ==>
      (InviteeMatches(p, ByDomain(domain)).value <==>
       EmailText(p).Some? && EndsWith(ToLower(EmailText(p).value), ToLower(domain)))
    ensures PlainInvitee(p, ByDomain(domain)) ==> InviteeMatches(p, ByDomain(domain)).Ok?
  {
  }

  /** The domain filter keeps a meeting exactly when some invitee's email, lowercased, ends with the lowercased domain. */
  lemma DomainMatchSpec(m: Json, domain: string)
    ensures Matches(m, ByDomain(domain)).Ok? ==>
      (Matches(m, ByDomain(domain)).value <==>
       exists k :: 0 <= k < |Invitees(m)| && EmailText(Invitees(m)[k]).Some? &&
                   EndsWith(ToLower(EmailText(Invitees(m)[k]).value), ToLower(domain)))
    ensures PlainMeeting(m, ByDomain(domain)) ==> Matches(m, ByDomain(domain)).Ok?
  {
    var invs := Invitees(m);
    if m != JNull && Get(m, "calendar_invitees").Defined? && Get(m, "calendar_invitees").value.JArr? {
      SomeInviteeOutcome(invs, ByDomain(domain));
      forall k | 0 <= k < |invs| {
        DomainInvitee(invs[k], domain);
      }
    }
  }

  /** The company callback answers whether the invitee's email or name contains the name, ignoring case. */
  lemma CompanyInvitee(p: Json, name: string)
    ensures var lc := ToLower(name);
      InviteeMatches(p, ByCompany(name)).Ok? ==>
      (InviteeMatches(p, ByCompany(name)).value <==>
       (EmailText(p).Some? && Contains(ToLower(EmailText(p).value), lc)) ||
       (NameText(p).Some? && Contains(ToLower(NameText(p).value), lc)))
    ensures PlainInvitee(p, ByCompany(name)) ==> InviteeMatches(p, ByCompany(name)).Ok?
  {
  }

  /** The company filter keeps a meeting exactly when its title, or some invitee's email or name, contains the name, ignoring case. */
  lemma CompanyMatchSpec(m: Json, name: string)
    ensures var lc := ToLower(name);
      Matches(m, ByCompany(name)).Ok? ==>
      (Matches(m, ByCompany(name)).value <==>
       (TitleText(m).Some? && Contains(ToLower(TitleText(m).value), lc)) ||
       exists k :: 0 <= k < |Invitees(m)| &&
         ((EmailText(Invitees(m)[k]).Some? && Contains(ToLower(EmailText(Invitees(m)[k]).value), lc)) ||
          (NameText(Invitees(m)[k]).Some? && Contains(ToLower(NameText(Invitees(m)[k]).value), lc))))
    ensures PlainMeeting(m, ByCompany(name)) ==> Matches(m, ByCompany(name)).Ok?
  {
    var invs := Invitees(m);
    if m != JNull && Get(m, "calendar_invitees").Defined? && Get(m, "calendar_invitees").value.JArr? {
      SomeInviteeOutcome(invs, ByCompany(name));
      forall k | 0 <= k < |invs| {
        CompanyInvitee(invs[k], name);
      }
    }
  }

  // ---------------------------------------------------------------------------
  // syncAllMeetings
  // ---------------------------------------------------------------------------

  const MaxRequestsPerMinute: nat := 60

  /** The cursor parameter: sent only when the cursor is truthy. */
  function CursorArg(cursor: Prop): Option<Json> {
    if TruthyProp(cursor) then Some(cursor.value) else None
  }

  /** `allMeetings.concat(newMeetings)`: an array's elements, or any other value as one element. */
  function ConcatValue(all: seq<Json>, v: Json): (r: seq<Json>)
    ensures |all| <= |r| && r[..|all|] == all
  {
    if v.JArr? then all + v.elems else all + [v]
  }

  /** `v.length > 0` for an object: its own `length` property compared with zero. */
  predicate LengthPositive(v: Json) {
    Get(v, "length").Defined? && JsPositive(Get(v, "length").value)
  }

  /**
   * `newMeetings.length > 0`: arrays and strings have their own length, an
   * object has whatever its `length` property holds; numbers and booleans
   * have no `length`, and `undefined > 0` is false.
   */
  predicate HasItems(v: Json) {
    (v.JArr? && |v.elems| > 0) || (v.JStr? && |v.s| > 0) || (v.JObj? && LengthPositive(v))
  }

  /** `data.items || []`. */
  function PageItems(data: Json): Json {
    OrElse(Get(data, "items"), Defined(JArr([]))).value
  }

  /**
   * The loop from a cursor with the meetings gathered so far: fetch, append
   * the page, and go on while the next cursor is truthy and the page was
   * not empty. `None` when more than `fuel` requests would be needed.
   */
  function SyncFrom(fetch: Option<Json> -> Outcome<Json>, cursor: Prop, acc: seq<Json>, fuel: nat): Option<Outcome<seq<Json>>>
    decreases fuel
  {
    if fuel == 0 then None
    else match fetch(CursorArg(cursor))
      case Thrown(m) => Some(Thrown(m))
      case Ok(data) =>
        if data == JNull then Some(Thrown(TypeErrorText))
        else
          var all := ConcatValue(acc, PageItems(data));
          var next := Get(data, "next_cursor");
          if TruthyProp(next) && HasItems(PageItems(data)) then SyncFrom(fetch, next, all, fuel - 1)
          else Some(Ok(all))
  }

  /** The request counter after `n` requests: it counts up and starts again from 1 after the 60th. */
  function RequestCount(n: nat): (r: nat)
    ensures r <= MaxRequestsPerMinute
    decreases n
  {
    if n == 0 then 0
    else if RequestCount(n - 1) >= MaxRequestsPerMinute then 1
    else RequestCount(n - 1) + 1
  }

  /** The counter after `n > 0` requests is `((n - 1) mod 60) + 1`: it reaches 60 and is then reset. */
  lemma {:induction false} RequestCountCycles(n: nat)
    ensures n > 0 ==> RequestCount(n) == (n - 1) % 60 + 1
    decreases n
  {
    if n > 1 {
      RequestCountCycles(n - 1);
    }
  }

  /**
   * `syncAllMeetings` with the fetch abstracted. The loop runs while the
   * API keeps returning cursors; `fuel` bounds the number of pages for the
   * proof of termination only.
   */
  method SyncAllMeetings(fetch: Option<Json> -> Outcome<Json>, ghost fuel: nat) returns (result: Outcome<seq<Json>>)
    requires SyncFrom(fetch, Defined(JNull), [], fuel).Some?
    ensures result == SyncFrom(fetch, Defined(JNull), [], fuel).value
  {
    ghost var target := SyncFrom(fetch, Defined(JNull), [], fuel);
    var allMeetings: seq<Json> := [];
    var cursor := Defined(JNull);
    var hasMore := true;
    var requestCount: nat := 0;
    ghost var f := fuel;
    ghost var requests: nat := 0;
    while hasMore
      invariant hasMore ==> SyncFrom(fetch, cursor, allMeetings, f) == target
      invariant !hasMore ==> target == Some(Ok(allMeetings))
      invariant requestCount == RequestCount(requests)
      decreases f
    {
      if requestCount >= MaxRequestsPerMinute {
        requestCount := 0;
      }
      var response := fetch(CursorArg(cursor));
      SyncStep(fetch, cursor, allMeetings, f);
      if response.Thrown? {
        return Thrown(response.message);
      }
      var data := response.value;
      if data == JNull {
        return Thrown(TypeErrorText);
      }
      var newMeetings := PageItems(data);
      allMeetings := ConcatValue(allMeetings, newMeetings);
      hasMore := TruthyProp(Get(data, "next_cursor")) && HasItems(newMeetings);
      cursor := Get(data, "next_cursor");
      requestCount := requestCount + 1;
      requests := requests + 1;
      f := f - 1;
    }
    result := Ok(allMeetings);
  }

  /** One request of the loop: how the remaining result follows from the response. */
  lemma SyncStep(fetch: Option<Json> -> Outcome<Json>, cursor: Prop, acc: seq<Json>, fuel: nat)
    requires SyncFrom(fetch, cursor, acc, fuel).Some?
    ensures fuel > 0
    ensures fetch(CursorArg(cursor)).Thrown? ==> SyncFrom(fetch, cursor, acc, fuel) == Some(Thrown(fetch(CursorArg(cursor)).message))
    ensures fetch(CursorArg(cursor)) == Ok(JNull) ==> SyncFrom(fetch, cursor, acc, fuel) == Some(Thrown(TypeErrorText))
    ensures fetch(CursorArg(cursor)).Ok? && fetch(CursorArg(cursor)).value != JNull ==>
      var data := fetch(CursorArg(cursor)).value;
      var all := ConcatValue(acc, PageItems(data));
      var next := Get(data, "next_cursor");
      SyncFrom(fetch, cursor, acc, fuel) ==
        if TruthyProp(next) && HasItems(PageItems(data)) then SyncFrom(fetch, next, all, fuel - 1) else Some(Ok(all))
  {
  }

  /** The meetings gathered so far stay in front: pages are concatenated in fetch order. */
  lemma {:induction false} SyncKeepsEarlierPages(fetch: Option<Json> -> Outcome<Json>, cursor: Prop, acc: seq<Json>, fuel: nat)
    requires SyncFrom(fetch, cursor, acc, fuel).Some? && SyncFrom(fetch, cursor, acc, fuel).value.Ok?
    ensures var all := SyncFrom(fetch, cursor, acc, fuel).value.value;
      |acc| <= |all| && all[..|acc|] == acc
    decreases fuel
  {
    var data := fetch(CursorArg(cursor)).value;
    var all := ConcatValue(acc, PageItems(data));
    var next := Get(data, "next_cursor");
    if TruthyProp(next) && HasItems(PageItems(data)) {
      SyncKeepsEarlierPages(fetch, next, all, fuel - 1);
      var r := SyncFrom(fetch, cursor, acc, fuel).value.value;
      assert r[..|all|][..|acc|] == r[..|acc|];
    }
  }

  /** An empty page, or a page without a next cursor, ends the loop after appending it. */
  lemma SyncStops(fetch: Option<Json> -> Outcome<Json>, cursor: Prop, acc: seq<Json>, fuel: nat, data: Json)
    requires fuel > 0 && fetch(CursorArg(cursor)) == Ok(data) && data != JNull
    requires !TruthyProp(Get(data, "next_cursor")) || PageItems(data) == JArr([])
    ensures SyncFrom(fetch, cursor, acc, fuel) == Some(Ok(ConcatValue(acc, PageItems(data))))
    ensures PageItems(data) == JArr([]) ==> SyncFrom(fetch, cursor, acc, fuel) == Some(Ok(acc))
  {
    assert acc + [] == acc;
  }

  /**
   * A truthy `items` that is not an array is appended whole, as a single
   * meeting; a number, a boolean or an object without a positive `length`
   * then ends the loop.
   */
  lemma SyncAppendsNonArray(fetch: Option<Json> -> Outcome<Json>, cursor: Prop, acc: seq<Json>, fuel: nat, data: Json, v: Json)
    requires fuel > 0 && fetch(CursorArg(cursor)) == Ok(data) && data.JObj?
    requires Get(data, "items") == Defined(v) && Truthy(v) && !v.JArr? && !v.JStr?
    requires !LengthPositive(v)
    ensures SyncFrom(fetch, cursor, acc, fuel) == Some(Ok(acc + [v]))
  {
  }

  /**
   * An object `items` whose `length` is above zero counts as a non-empty
   * page: it is appended whole and the loop follows a truthy next cursor.
   */
  lemma SyncFollowsObjectLength(fetch: Option<Json> -> Outcome<Json>, cursor: Prop, acc: seq<Json>, fuel: nat, data: Json, v: Json)
    requires fuel > 0 && fetch(CursorArg(cursor)) == Ok(data) && data.JObj?
    requires Get(data, "items") == Defined(v) && v.JObj? && LengthPositive(v)
    requires TruthyProp(Get(data, "next_cursor"))
    ensures SyncFrom(fetch, cursor, acc, fuel) == SyncFrom(fetch, Get(data, "next_cursor"), acc + [v], fuel - 1)
  {
  }

  /** More fuel than needed changes nothing: the result does not depend on the bound. */
  lemma {:induction false} SyncFuelIrrelevant(fetch: Option<Json> -> Outcome<Json>, cursor: Prop, acc: seq<Json>, fuel: nat, more: nat)
    requires SyncFrom(fetch, cursor, acc, fuel).Some? && fuel <= more
    ensures SyncFrom(fetch, cursor, acc, more) == SyncFrom(fetch, cursor, acc, fuel)
    decreases fuel
  {
    var response := fetch(CursorArg(cursor));
    if response.Ok? && response.value != JNull {
      var data := response.value;
      var next := Get(data, "next_cursor");
      if TruthyProp(next) && HasItems(PageItems(data)) {
        SyncFuelIrrelevant(fetch, next, ConcatValue(acc, PageItems(data)), fuel - 1, more - 1);
      }
    }
  }
}
