/** The logic of the meeting archive page, src/pages/MeetingArchive.tsx: the
    filter pipeline over the loaded meetings (search term, source type,
    month), the rule that picks the list on display, the counts shown above
    it and the display names of the source types. */
module MeetingArchive {
  import opened Seqs
  import opened Text
  import opened MeetingTypes

  /** The value of the source and month selectors that switches their filter off. */
  const AllOption: string := "all"

  // ------------------------------------------------------ the three tests

  /** The search test: the lower-cased term occurs in the lower-cased title,
      in the lower-cased content or in some lower-cased attendee. */
  predicate MatchesSearch(m: MeetingMinutes, term: string) {
    var t := Lower(term);
    || Contains(Lower(m.title), t)
    || Contains(Lower(m.content), t)
    || exists i :: 0 <= i < |m.attendees| && Contains(Lower(m.attendees[i]), t)
  }

  /** The source test: `meeting.sourceType === selectedSource`. */
  predicate MatchesSource(m: MeetingMinutes, source: string) {
    SourceName(m.sourceType) == source
  }

  /** The month test: `meeting.date.startsWith(targetMonth)`. */
  predicate MatchesMonth(m: MeetingMinutes, month: string) {
    month <= m.date
  }

  /** A test that is applied only when its filter is active. */
  function Guarded(active: bool, test: MeetingMinutes -> bool): MeetingMinutes -> bool {
    m => !active || test(m)
  }

  function SearchStep(term: string): MeetingMinutes -> bool {
    Guarded(term != [], m => MatchesSearch(m, term))
  }

  function SourceStep(source: string): MeetingMinutes -> bool {
    Guarded(source != AllOption, m => MatchesSource(m, source))
  }

  function MonthStep(month: string): MeetingMinutes -> bool {
    Guarded(month != AllOption, m => MatchesMonth(m, month))
  }

  /** A meeting passes every active filter. */
  predicate Selected(m: MeetingMinutes, term: string, source: string, month: string) {
    && (term != [] ==> MatchesSearch(m, term))
    && (source != AllOption ==> MatchesSource(m, source))
    && (month != AllOption ==> MatchesMonth(m, month))
  }

  function SelectedBy(term: string, source: string, month: string): MeetingMinutes -> bool {
    m => Selected(m, term, source, month)
  }

  /** The list `filterMeetings` stores: the meetings that pass every active
      filter, in one pass. */
  function FilterResult(ms: seq<MeetingMinutes>, term: string, source: string, month: string): (r: seq<MeetingMinutes>)
    ensures |r| <= |ms|
    ensures forall m :: m in r <==> m in ms && Selected(m, term, source, month)
  {
    Filter(ms, SelectedBy(term, source, month))
  }

  // --------------------------------------------------- the page's state

  /** The page's React state that the filter reads and writes. */
  class ArchiveView {
    var meetings: seq<MeetingMinutes>
    var filteredMeetings: seq<MeetingMinutes>
    var searchTerm: string
    var selectedSource: string
    var selectedMonth: string

    /** The filter effect has run since the last change. */
    ghost predicate Valid()
      reads this
    {
      filteredMeetings == FilterResult(meetings, searchTerm, selectedSource, selectedMonth)
    }

    /** The initial state: nothing loaded, no search term, both selectors on `all`. */
    constructor ()
      ensures meetings == [] && filteredMeetings == []
      ensures searchTerm == [] && selectedSource == AllOption && selectedMonth == AllOption
      ensures Valid()
    {
      meetings, filteredMeetings := [], [];
      searchTerm, selectedSource, selectedMonth := [], AllOption, AllOption;
    }

    /** `filterMeetings`: starts from all meetings and narrows the list by
        each active filter in turn (search, then source, then month); what it
        stores is the one-pass FilterResult. */
    method FilterMeetings()
      modifies this`filteredMeetings
      ensures filteredMeetings == FilterResult(meetings, searchTerm, selectedSource, selectedMonth)
      ensures Valid()
    {
      var term, source, month := searchTerm, selectedSource, selectedMonth;
      var filtered := meetings;
      ghost var keep: MeetingMinutes -> bool := m => true;
      FilterAll(meetings, keep);
      if term != [] {
        var test := m => MatchesSearch(m, term);
        FilterFilter(meetings, keep, test);
        filtered := Filter(filtered, test);
        keep := Both(keep, test);
      }
      if source != AllOption {
        var test := m => MatchesSource(m, source);
        FilterFilter(meetings, keep, test);
        filtered := Filter(filtered, test);
        keep := Both(keep, test);
      }
      if month != AllOption {
        var test := m => MatchesMonth(m, month);
        FilterFilter(meetings, keep, test);
        filtered := Filter(filtered, test);
        keep := Both(keep, test);
      }
      FilterCongruent(meetings, keep, SelectedBy(term, source, month));
      filteredMeetings := filtered;
    }

    /** `loadMeetings` followed by the filter effect; the service that supplies
        the data is a parameter here. */
    method LoadMeetings(data: seq<MeetingMinutes>)
      modifies this
      ensures meetings == data
      ensures searchTerm == old(searchTerm) && selectedSource == old(selectedSource) && selectedMonth == old(selectedMonth)
      ensures Valid()
    {
      meetings := data;
      FilterMeetings();
    }

    /** Typing in the search box, followed by the filter effect. */
    method SetSearchTerm(term: string)
      modifies this
      ensures searchTerm == term
      ensures meetings == old(meetings) && selectedSource == old(selectedSource) && selectedMonth == old(selectedMonth)
      ensures Valid()
    {
      searchTerm := term;
      FilterMeetings();
    }

    /** Choosing a source, followed by the filter effect. */
    method SetSelectedSource(source: string)
      modifies this
      ensures selectedSource == source
      ensures meetings == old(meetings) && searchTerm == old(searchTerm) && selectedMonth == old(selectedMonth)
      ensures Valid()
    {
      selectedSource := source;
      FilterMeetings();
    }

    /** Choosing a month, followed by the filter effect. */
    method SetSelectedMonth(month: string)
      modifies this
      ensures selectedMonth == month
      ensures meetings == old(meetings) && searchTerm == old(searchTerm) && selectedSource == old(selectedSource)
      ensures Valid()
    {
      selectedMonth := month;
      FilterMeetings();
    }
  }

  // --------------------------------------------- properties of the filter

  /** The filter keeps the input order and adds nothing. */
  lemma FilterResultIsSubsequence(ms: seq<MeetingMinutes>, term: string, source: string, month: string)
    ensures IsSubsequence(FilterResult(ms, term, source, month), ms)
  {
    FilterIsSubsequence(ms, SelectedBy(term, source, month));
  }

  /** With no search term and both selectors on `all`, every meeting is kept. */
  lemma NoFilterKeepsAll(ms: seq<MeetingMinutes>)
    ensures FilterResult(ms, [], AllOption, AllOption) == ms
  {
    FilterAll(ms, SelectedBy([], AllOption, AllOption));
  }

  /** A meeting is kept exactly when it is one of the meetings and passes
      each active test: the search term in its title, content or an
      attendee (ignoring ASCII case), its source equal to the selected one,
      its date starting with the selected month. */
  lemma FilterResultMembership(ms: seq<MeetingMinutes>, term: string, source: string, month: string, m: MeetingMinutes)
    ensures m in FilterResult(ms, term, source, month) <==>
      && m in ms
      && (term != [] ==>
            || Contains(Lower(m.title), Lower(term))
            || Contains(Lower(m.content), Lower(term))
            || exists i :: 0 <= i < |m.attendees| && Contains(Lower(m.attendees[i]), Lower(term)))
      && (source != AllOption ==> SourceName(m.sourceType) == source)
      && (month != AllOption ==> month <= m.date)
  {
    assert SelectedBy(term, source, month)(m) == Selected(m, term, source, month);
  }

  /** Applying the three filters in the opposite order (month, source,
      search) stores the same list: the order of the steps does not matter. */
  lemma FilterOrderIrrelevant(ms: seq<MeetingMinutes>, term: string, source: string, month: string)
    ensures Filter(Filter(Filter(ms, MonthStep(month)), SourceStep(source)), SearchStep(term))
         == FilterResult(ms, term, source, month)
  {
    FilterFilter(ms, MonthStep(month), SourceStep(source));
    var two := Both(MonthStep(month), SourceStep(source));
    FilterFilter(ms, two, SearchStep(term));
    FilterCongruent(ms, Both(two, SearchStep(term)), SelectedBy(term, source, month));
  }

  /** A selected source that is none of the three source types keeps nothing. */
  lemma {:induction false} UnknownSourceKeepsNothing(ms: seq<MeetingMinutes>, term: string, source: string, month: string)
    requires source != AllOption && source != "slack" && source != "voice" && source != "manual"
    ensures FilterResult(ms, term, source, month) == []
  {
    if ms != [] {
      UnknownSourceKeepsNothing(ms[1..], term, source, month);
      assert !SelectedBy(term, source, month)(ms[0]);
    }
  }

  // --------------------------------------------------- the list on display

  /** The meetings shown when nothing has been loaded. */
  const MockMeetings: seq<MeetingMinutes> := [
    MeetingMinutes(
      "1", "스프린트 회의록 #12", "2024-07-02", ["임현우", "김개발", "박디자인"],
      "스프린트 진행 상황과 주요 이슈들에 대해 논의했습니다. 로그인 버그 수정이 우선순위가 높으며, UI 개선 작업도 병행하기로 했습니다.",
      Slack, "Slack thread conversation...", "2024-07-02T14:32:00Z", "2024-07-02T14:32:00Z",
      ["로그인 버그 우선순위 높음", "UI 개선 작업 필요", "데이터베이스 성능 최적화 검토"],
      [ActionItem("ai-1", "로그인 세션 만료 문제 수정", "김개발", Some("2024-07-03"), High, false, Some(4))],
      Some("우선순위에 따라 작업 분배 완료"), Some(["스프린트", "개발"])),
    MeetingMinutes(
      "2", "제품 기획 회의", "2024-07-01", ["임현우", "박디자인", "이기획"],
      "새로운 기능에 대한 기획을 논의했습니다. 사용자 경험 개선을 위한 다양한 아이디어가 제시되었습니다.",
      Voice, "meeting_audio_20240701.mp3", "2024-07-01T10:00:00Z", "2024-07-01T10:00:00Z",
      ["사용자 피드백 분석", "새로운 기능 우선순위 정의", "개발 일정 수립"],
      [ActionItem("ai-2", "와이어프레임 초안 작성", "박디자인", Some("2024-07-05"), Medium, false, Some(6))],
      Some("기능 개발 로드맵 확정"), Some(["기획", "디자인"])),
    MeetingMinutes(
      "3", "팀 회고 미팅", "2024-06-30", ["임현우", "김개발", "박디자인", "이백엔드"],
      "지난 스프린트에 대한 회고를 진행했습니다. 잘된 점과 개선점을 정리하고 다음 스프린트 계획을 수립했습니다.",
      Manual, "직접 작성된 회의록 내용", "2024-06-30T16:00:00Z", "2024-06-30T16:00:00Z",
      ["팀 협업 프로세스 개선", "코드 리뷰 효율성 향상", "커뮤니케이션 방식 개선"],
      [ActionItem("ai-3", "코드 리뷰 가이드라인 작성", "이백엔드", Some("2024-07-07"), Medium, true, Some(3))],
      Some("팀 프로세스 개선 방향 설정"), Some(["회고", "프로세스"]))
  ]

  /** `displayMeetings`: the filtered list when it is not empty; otherwise
      the built-in list when nothing is loaded, and all loaded meetings when
      something is. The list on display is never empty. */
  function DisplayMeetings(filtered: seq<MeetingMinutes>, meetings: seq<MeetingMinutes>): (r: seq<MeetingMinutes>)
    ensures r != []
    ensures filtered != [] ==> r == filtered
    ensures filtered == [] && meetings == [] ==> r == MockMeetings
    ensures filtered == [] && meetings != [] ==> r == meetings
  {
    if |filtered| > 0 then filtered else if |meetings| == 0 then MockMeetings else meetings
  }

  /** Once meetings are loaded, the list on display is drawn from them in
      order, and either it is the whole list (nothing matched) or every
      meeting on it passes the active filters. */
  lemma DisplayFromLoaded(ms: seq<MeetingMinutes>, term: string, source: string, month: string)
    requires ms != []
    ensures var r := DisplayMeetings(FilterResult(ms, term, source, month), ms);
      && IsSubsequence(r, ms)
      && (r == ms || forall m :: m in r ==> Selected(m, term, source, month))
  {
    var f := FilterResult(ms, term, source, month);
    FilterResultIsSubsequence(ms, term, source, month);
    if f == [] {
      SubsequenceRefl(ms);
    }
  }

  /** When loaded meetings exist but none passes the filters, the fallback
      puts every loaded meeting on display, so the page never reaches its
      "no meetings" card. */
  lemma NoMatchShowsAll(ms: seq<MeetingMinutes>, term: string, source: string, month: string)
    requires ms != []
    requires forall m :: m in ms ==> !Selected(m, term, source, month)
    ensures FilterResult(ms, term, source, month) == []
    ensures DisplayMeetings(FilterResult(ms, term, source, month), ms) == ms
  {
    FilterNone(ms, SelectedBy(term, source, month));
  }

  // ------------------------------------------------------------ the counts

  /** The month the "this month" count refers to. */
  const CurrentMonth: string := "2024-07"

  datatype Stats = Stats(total: nat, thisMonth: nat, slack: nat, voice: nat, manual: nat)

  function SourceIs(name: string): MeetingMinutes -> bool {
    m => MatchesSource(m, name)
  }

  /** Every meeting has exactly one of the three source types, so the three
      source counts add up to the length of the list. */
  lemma {:induction false} SourceCountsAddUp(ms: seq<MeetingMinutes>)
    ensures |Filter(ms, SourceIs("slack"))| + |Filter(ms, SourceIs("voice"))| + |Filter(ms, SourceIs("manual"))| == |ms|
  {
    if ms != [] {
      SourceCountsAddUp(ms[1..]);
      assert SourceIs("slack")(ms[0]) == (ms[0].sourceType == Slack);
      assert SourceIs("voice")(ms[0]) == (ms[0].sourceType == Voice);
      assert SourceIs("manual")(ms[0]) == (ms[0].sourceType == Manual);
    }
  }

  /** The month filter of the counts lets through the meetings dated in the current month. */
  function InCurrentMonth(m: MeetingMinutes): bool {
    MatchesMonth(m, CurrentMonth)
  }

  /** The positions the source filter counts are those holding that source type. */
  lemma SourcePositions(ms: seq<MeetingMinutes>, t: SourceType)
    ensures Positions(ms, SourceIs(SourceName(t))) == set i | 0 <= i < |ms| && ms[i].sourceType == t
  {
    forall i | 0 <= i < |ms|
      ensures SourceIs(SourceName(t))(ms[i]) == (ms[i].sourceType == t)
    {
      match t
      case Slack =>
      case Voice =>
      case Manual =>
    }
  }

  /** The positions the month filter counts are those dated in the current month. */
  lemma MonthPositions(ms: seq<MeetingMinutes>)
    ensures Positions(ms, InCurrentMonth) == set i | 0 <= i < |ms| && CurrentMonth <= ms[i].date
  {
  }

  /** Each count of the stats is the number of positions holding what it counts. */
  lemma CountsArePositions(ms: seq<MeetingMinutes>)
    ensures |Filter(ms, InCurrentMonth)| == |set i | 0 <= i < |ms| && CurrentMonth <= ms[i].date|
    ensures |Filter(ms, SourceIs("slack"))| == |set i | 0 <= i < |ms| && ms[i].sourceType == Slack|
    ensures |Filter(ms, SourceIs("voice"))| == |set i | 0 <= i < |ms| && ms[i].sourceType == Voice|
    ensures |Filter(ms, SourceIs("manual"))| == |set i | 0 <= i < |ms| && ms[i].sourceType == Manual|
  {
    FilterCount(ms, InCurrentMonth);
    MonthPositions(ms);
    FilterCount(ms, SourceIs("slack"));
    SourcePositions(ms, Slack);
    FilterCount(ms, SourceIs("voice"));
    SourcePositions(ms, Voice);
    FilterCount(ms, SourceIs("manual"));
    SourcePositions(ms, Manual);
  }

  /** `stats`: the number of meetings on display, of those dated in the
      current month, and of each source type; the source counts add up to
      the total and the month count never exceeds it. */
  function ComputeStats(display: seq<MeetingMinutes>): (st: Stats)
    ensures st.total == |display|
    ensures st.thisMonth == |set i | 0 <= i < |display| && CurrentMonth <= display[i].date|
    ensures st.slack == |set i | 0 <= i < |display| && display[i].sourceType == Slack|
    ensures st.voice == |set i | 0 <= i < |display| && display[i].sourceType == Voice|
    ensures st.manual == |set i | 0 <= i < |display| && display[i].sourceType == Manual|
    ensures st.slack + st.voice + st.manual == st.total
    ensures st.thisMonth <= st.total
  {
    SourceCountsAddUp(display);
    CountsArePositions(display);
    Stats(
      |display|,
      |Filter(display, InCurrentMonth)|,
      |Filter(display, SourceIs("slack"))|,
      |Filter(display, SourceIs("voice"))|,
      |Filter(display, SourceIs("manual"))|)
  }

  // ------------------------------------------------------ display names

  /** `getSourceText`: the display name of a source type; any other string is shown as it is. */
  function SourceText(sourceType: string): (shown: string)
    ensures sourceType != "slack" && sourceType != "voice" && sourceType != "manual" ==> shown == sourceType
  {
    if sourceType == "slack" then "Slack"
    else if sourceType == "voice" then "음성"
    else if sourceType == "manual" then "직접 작성"
    else sourceType
  }

  /** The three source types get three different display names, none of
      them the raw stored name. */
  lemma SourceTextDistinguishes(a: SourceType, b: SourceType)
    ensures SourceText(SourceName(a)) == SourceText(SourceName(b)) ==> a == b
    ensures SourceText(SourceName(a)) != SourceName(a)
  {
  }
}
