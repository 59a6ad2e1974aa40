/** The fixture ("mock") path of src/services/ai/AIService.ts: the text
    heuristics that turn a chat thread or free text into a meeting record and
    meeting notes into generated issues. Every `Math.random()` draw and every
    `Date.now()` reading is an input: a record of draws per generated item,
    taken in the order the source evaluates them. */
module AIService {
  import opened Seqs
  import opened Text
  import opened MeetingTypes

  // ------------------------------------------------------- random choices

  /** A value `Math.random()` can return. */
  predicate IsDraw(d: real) {
    0.0 <= d < 1.0
  }

  /** The members `assignRandomMember` picks from. */
  const Members: seq<string> := ["임현우", "김개발", "박디자인", "이백엔드"]

  /** `members[Math.floor(Math.random() * members.length)]` for the draw d. */
  function AssignRandomMember(d: real): (m: string)
    requires IsDraw(d)
    ensures m in Members
  {
    Members[(d * 4.0).Floor]
  }

  /** The draws in [k/4, (k+1)/4) pick member k: each member gets a quarter of the draws. */
  lemma MemberBand(d: real, k: nat)
    requires k < |Members|
    requires k as real / 4.0 <= d < (k + 1) as real / 4.0
    ensures IsDraw(d) && AssignRandomMember(d) == Members[k]
  {
    assert k as real <= d * 4.0 < (k + 1) as real;
  }

  /** The priorities `assignRandomPriority` picks from, in the source's order. */
  const Priorities: seq<Priority> := [Low, Medium, High, Critical]

  /** `priorities[Math.floor(Math.random() * priorities.length)]` for the draw d. */
  function AssignRandomPriority(d: real): (p: Priority)
    requires IsDraw(d)
    ensures p == Low <==> d < 0.25
    ensures p == Medium <==> 0.25 <= d < 0.5
    ensures p == High <==> 0.5 <= d < 0.75
    ensures p == Critical <==> 0.75 <= d
  {
    Priorities[(d * 4.0).Floor]
  }

  /** The draws in [k/4, (k+1)/4) pick priority k: every priority is drawn, each with a quarter of the draws. */
  lemma PriorityBand(d: real, k: nat)
    requires k < |Priorities|
    requires k as real / 4.0 <= d < (k + 1) as real / 4.0
    ensures IsDraw(d) && AssignRandomPriority(d) == Priorities[k]
  {
    assert k as real <= d * 4.0 < (k + 1) as real;
  }

  /** `Math.floor(Math.random() * 8) + 1` for the draw d. */
  function EstimateHours(d: real): (h: int)
    requires IsDraw(d)
    ensures 1 <= h <= 8
  {
    (d * 8.0).Floor + 1
  }

  /** The draws in [(h-1)/8, h/8) give h hours: every value 1..8 occurs, each with an eighth of the draws. */
  lemma HoursBand(d: real, h: int)
    requires 1 <= h <= 8
    requires (h - 1) as real / 8.0 <= d < h as real / 8.0
    ensures IsDraw(d) && EstimateHours(d) == h
  {
    assert (h - 1) as real <= d * 8.0 < h as real;
  }

  // ---------------------------------------------------------- participants

  /** The names `extractParticipants` looks for. */
  const ParticipantRoster: seq<string> := ["임현우", "김개발", "박디자인", "이백엔드", "최테스터"]

  /** What `extractParticipants` returns when no roster name occurs. */
  const PlaceholderParticipants: seq<string> := ["참여자1", "참여자2"]

  /** Some roster name occurs in the text. */
  predicate MentionsRosterName(text: string) {
    exists name :: name in ParticipantRoster && Contains(text, name)
  }

  /** `extractParticipants`: the roster names that occur in the text, in
      roster order and each once; the two placeholders when there is none. */
  function ExtractParticipants(text: string): (r: seq<string>)
    ensures r != [] && NoDup(r)
    ensures MentionsRosterName(text) ==>
      && IsSubsequence(r, ParticipantRoster)
      && forall name :: name in ParticipantRoster ==> (name in r <==> Contains(text, name))
    ensures !MentionsRosterName(text) ==> r == PlaceholderParticipants
  {
    RosterNoDup();
    FoundShape(text);
    FoundMembership(text);
    FoundNonEmpty(text);
    var found := Filter(ParticipantRoster, Mentioned(text));
    if |found| > 0 then found else PlaceholderParticipants
  }

  function Mentioned(text: string): string -> bool {
    name => Contains(text, name)
  }

  lemma RosterNoDup()
    ensures NoDup(ParticipantRoster) && NoDup(PlaceholderParticipants)
  {
  }

  /** The roster names found keep roster order and occur once each. */
  lemma FoundShape(text: string)
    ensures IsSubsequence(Filter(ParticipantRoster, Mentioned(text)), ParticipantRoster)
    ensures NoDup(Filter(ParticipantRoster, Mentioned(text)))
  {
    RosterNoDup();
    FilterIsSubsequence(ParticipantRoster, Mentioned(text));
    FilterNoDup(ParticipantRoster, Mentioned(text));
  }

  /** A roster name is found exactly when the text includes it. */
  lemma FoundMembership(text: string)
    ensures forall name :: name in ParticipantRoster ==>
      (name in Filter(ParticipantRoster, Mentioned(text)) <==> Contains(text, name))
  {
    var found := Filter(ParticipantRoster, Mentioned(text));
    forall name | name in ParticipantRoster
      ensures name in found <==> Contains(text, name)
    {
      assert Mentioned(text)(name) == Contains(text, name);
    }
  }

  /** Some roster name is found exactly when the text includes one. */
  lemma FoundNonEmpty(text: string)
    ensures Filter(ParticipantRoster, Mentioned(text)) != [] <==> MentionsRosterName(text)
  {
    var found := Filter(ParticipantRoster, Mentioned(text));
    if MentionsRosterName(text) {
      var name :| name in ParticipantRoster && Contains(text, name);
      assert Mentioned(text)(name);
    }
    if found != [] {
      var name := found[0];
      assert Mentioned(text)(name);
    }
  }

  // ---------------------------------------------------------- action items

  /** The markers `extractActionItems` looks for anywhere in a line. */
  const ActionMarkers: seq<string> := ["담당:", "할당:", "TODO:", "- "]

  predicate HasActionMarker(line: string) {
    exists i :: 0 <= i < |ActionMarkers| && Contains(line, ActionMarkers[i])
  }

  /** The lines of the text that hold an action marker, in text order. */
  function MarkedLines(text: string): seq<string> {
    Filter(Split(text), HasActionMarker)
  }

  /** `line.replace(/담당:|할당:|TODO:|-/g, '')`: scanning left to right, every
      occurrence of a marker and every hyphen is deleted. Only deletes, and
      leaves no hyphen at all. */
  function StripMarkers(s: string): (r: string)
    ensures '-' !in r
    ensures IsSubsequence(r, s)
  {
    if s == [] then []
    else if "담당:" <= s || "할당:" <= s then SkipKeeps(s, 3); StripMarkers(s[3..])
    else if "TODO:" <= s then SkipKeeps(s, 5); StripMarkers(s[5..])
    else if s[0] == '-' then SkipKeeps(s, 1); StripMarkers(s[1..])
    else
      var rest := StripMarkers(s[1..]);
      assert ([s[0]] + rest)[0] == s[0] && ([s[0]] + rest)[1..] == rest;
      [s[0]] + rest
  }

  /** Whatever is a subsequence of a suffix of s is a subsequence of s. */
  lemma SkipKeeps(s: string, n: nat)
    requires n <= |s|
    ensures forall r :: IsSubsequence(r, s[n..]) ==> IsSubsequence(r, s)
  {
    forall r | IsSubsequence(r, s[n..]) ensures IsSubsequence(r, s) {
      DropKeeps(r, s, n);
    }
  }

  lemma {:induction false} DropKeeps(r: string, s: string, n: nat)
    requires n <= |s| && IsSubsequence(r, s[n..])
    ensures IsSubsequence(r, s)
    decreases n
  {
    if n > 0 {
      assert s[1..][n - 1..] == s[n..];
      DropKeeps(r, s[1..], n - 1);
      if r != [] {
        assert IsSubsequence(r, s[1..]);
      }
    }
  }

  /** A line without hyphens and without markers is left as it is. */
  lemma {:induction false} StripMarkersPlain(s: string)
    requires '-' !in s
    requires forall i :: 0 <= i < |s| ==> !("담당:" <= s[i..] || "할당:" <= s[i..] || "TODO:" <= s[i..])
    ensures StripMarkers(s) == s
  {
    if s != [] {
      assert s[0..] == s;
      assert forall i :: 0 <= i < |s[1..]| ==> s[1..][i..] == s[i + 1..];
      StripMarkersPlain(s[1..]);
      assert [s[0]] + s[1..] == s;
    }
  }

  /** The code points the replace can delete: those of the three markers and the hyphen. */
  const MarkerChars: set<char> := {'담', '당', '할', ':', 'T', 'O', 'D', '-'}

  /** What is deleted: the three markers and the hyphen. */
  const DeletedMarkers: seq<string> := ["담당:", "할당:", "TODO:", "-"]

  /** Every other code point survives the replace: it occurs in the result
      exactly as often as in the line. */
  lemma {:induction false} StripMarkersKeeps(s: string, c: char)
    requires c !in MarkerChars
    ensures multiset(StripMarkers(s))[c] == multiset(s)[c]
    decreases |s|
  {
    if s == [] {
    } else if "담당:" <= s || "할당:" <= s {
      StripMarkersKeeps(s[3..], c);
      DropMarkerKeeps(s, if "담당:" <= s then "담당:" else "할당:", c);
    } else if "TODO:" <= s {
      StripMarkersKeeps(s[5..], c);
      DropMarkerKeeps(s, "TODO:", c);
    } else if s[0] == '-' {
      StripMarkersKeeps(s[1..], c);
      DropMarkerKeeps(s, "-", c);
    } else {
      StripMarkersKeeps(s[1..], c);
      assert s == [s[0]] + s[1..];
    }
  }

  /** Dropping a marker at the front of a line keeps the count of every other code point. */
  lemma DropMarkerKeeps(s: string, m: string, c: char)
    requires m in DeletedMarkers && m <= s && c !in MarkerChars
    ensures multiset(s)[c] == multiset(s[|m|..])[c]
  {
    assert s == m + s[|m|..];
    assert c !in m;
  }

  /** A marker or hyphen at the front of a line is deleted, and nothing after it. */
  lemma StripLeadingMarker(k: nat, rest: string)
    requires k < |DeletedMarkers|
    ensures StripMarkers(DeletedMarkers[k] + rest) == StripMarkers(rest)
  {
    var m := DeletedMarkers[k];
    var s := m + rest;
    assert s[..|m|] == m && s[|m|..] == rest;
    if k == 2 {
      assert s[0] != "담당:"[0] && s[0] != "할당:"[0];
    } else if k == 3 {
      assert s[0] == '-';
      assert s[0] != "담당:"[0] && s[0] != "할당:"[0] && s[0] != "TODO:"[0];
    }
  }

  /** Markers are deleted in one pass, so deleting one can bring another
      together: what is left may still hold a marker. */
  lemma StripMarkersOnePass()
    ensures StripMarkers("T-ODO:") == "TODO:"
  {
    StripHyphenKept();
    assert "T-ODO:" == ['T'] + "-ODO:";
    assert "T-ODO:"[1] != "TODO:"[1];
    assert "담당:"[0] != 'T' && "할당:"[0] != 'T';
    StripKeep('T', "-ODO:");
  }

  lemma StripHyphenKept()
    ensures StripMarkers("-ODO:") == "ODO:"
  {
    StripTailKept();
    assert "-ODO:" == ['-'] + "ODO:";
    StripHyphen("ODO:");
  }

  lemma StripTailKept()
    ensures StripMarkers("ODO:") == "ODO:"
  {
    StripColonKept();
    assert "O:" == ['O'] + ":";
    assert "담당:"[0] != 'O' && "할당:"[0] != 'O' && "TODO:"[0] != 'O';
    StripKeep('O', ":");
    assert "DO:" == ['D'] + "O:";
    assert "담당:"[0] != 'D' && "할당:"[0] != 'D' && "TODO:"[0] != 'D';
    StripKeep('D', "O:");
    assert "ODO:" == ['O'] + "DO:";
    StripKeep('O', "DO:");
  }

  lemma StripColonKept()
    ensures StripMarkers(":") == ":"
  {
    assert ":" == [':'] + [];
    assert "담당:"[0] != ':' && "할당:"[0] != ':' && "TODO:"[0] != ':';
    StripKeep(':', []);
  }

  /** A hyphen at the front is deleted. */
  lemma StripHyphen(rest: string)
    ensures StripMarkers(['-'] + rest) == StripMarkers(rest)
  {
    var s := ['-'] + rest;
    assert s[0] == '-' && s[1..] == rest;
    assert "담당:"[0] != s[0] && "할당:"[0] != s[0] && "TODO:"[0] != s[0];
  }

  /** A code point that is no hyphen and starts no marker is kept. */
  lemma StripKeep(c: char, rest: string)
    requires c != '-' && !("담당:" <= [c] + rest || "할당:" <= [c] + rest || "TODO:" <= [c] + rest)
    ensures StripMarkers([c] + rest) == [c] + StripMarkers(rest)
  {
    var s := [c] + rest;
    assert s[0] == c && s[1..] == rest;
  }

  /** Milliseconds in the seven days `extractActionItems` adds to `Date.now()`. */
  const WeekMillis: int := 7 * 24 * 60 * 60 * 1000

  /** At most this many action items are extracted. */
  const MaxActionItems: nat := 2

  /** The inputs one extracted action item consumes: the `Math.random()`
      draw of `assignRandomMember` and the `Date.now()` reading of its due date. */
  datatype ActionDraw = ActionDraw(member: real, now: int)

  predicate ValidActionDraws(draws: seq<ActionDraw>) {
    forall i :: 0 <= i < |draws| ==> IsDraw(draws[i].member)
  }

  /** An action item as the heuristic produces it; `dueAt` is the due time in
      milliseconds, whose date part the source keeps as `dueDate`. */
  datatype ExtractedAction = ExtractedAction(description: string, assignee: string, priority: Priority, dueAt: int)

  /** A code point absent from s is absent from its trimmed form. */
  lemma TrimKeepsOut(s: string, c: char)
    requires c !in s
    ensures c !in Trim(s)
  {
    ContainsKeepsOut(s, Trim(s), c);
  }

  /** `extractActionItems`: one item for each of the first two marked lines,
      in line order. The description is the line with markers and hyphens
      deleted and then trimmed, so it holds no hyphen and neither starts nor
      ends with whitespace; the priority is always medium, the assignee a
      drawn member, and the due time seven days after the clock reading. */
  function ExtractActionItems(text: string, draws: seq<ActionDraw>): (r: seq<ExtractedAction>)
    requires |draws| >= MaxActionItems && ValidActionDraws(draws)
    ensures |r| == Min(MaxActionItems, |MarkedLines(text)|)
    ensures forall i :: 0 <= i < |r| ==>
      var d := r[i].description;
      && d == Trim(StripMarkers(MarkedLines(text)[i]))
      && '-' !in d
      && (d == [] || (!IsWhitespace(d[0]) && !IsWhitespace(d[|d| - 1])))
      && r[i].priority == Medium
      && r[i].assignee == AssignRandomMember(draws[i].member) && r[i].assignee in Members
      && r[i].dueAt == draws[i].now + WeekMillis
  {
    var lines := Take(MarkedLines(text), MaxActionItems);
    seq(|lines|, i requires 0 <= i < |lines| =>
      var stripped := StripMarkers(lines[i]);
      TrimKeepsOut(stripped, '-');
      ExtractedAction(Trim(stripped), AssignRandomMember(draws[i].member), Medium, draws[i].now + WeekMillis))
  }

  // ------------------------------------------------------ meeting record

  /** `line.trim()` is truthy: the line has content. */
  predicate HasContent(line: string) {
    Trim(line) != []
  }

  /** The lines of the text with content, in text order. */
  function ContentLines(text: string): seq<string> {
    Filter(Split(text), HasContent)
  }

  /** There is a line with content exactly when the text has a non-whitespace code point. */
  lemma ContentLinesIff(text: string)
    ensures ContentLines(text) != [] <==> HasNonWhitespace(text)
  {
    var lines := Split(text);
    JoinSplit(text);
    if ContentLines(text) != [] {
      var line := ContentLines(text)[0];
      assert line in lines && HasNonWhitespace(line);
      var i :| 0 <= i < |line| && !IsWhitespace(line[i]);
      JoinChars(lines, '\n', line[i]);
      assert line[i] in text;
    }
    if HasNonWhitespace(text) {
      var j :| 0 <= j < |text| && !IsWhitespace(text[j]);
      var c := text[j];
      JoinChars(lines, '\n', c);
      var line :| line in lines && c in line;
      var i :| 0 <= i < |line| && line[i] == c;
      assert HasContent(line);
      assert line in ContentLines(text);
    }
  }

  /** At most this many key points are kept. */
  const MaxKeyPoints: nat := 3

  const ExtractedTitle := "자동 추출된 회의록"
  const ExtractedConclusion := "주요 사안들이 논의되고 액션 아이템이 정리됨"

  /** The `data` of the record `mockMeetingExtraction` resolves with. */
  datatype ExtractedMeeting = ExtractedMeeting(
    title: string,
    attendees: seq<string>,
    keyPoints: seq<string>,
    actionItems: seq<ExtractedAction>,
    conclusion: string)

  /** `mockMeetingExtraction`: the key points are the first three lines with
      content, in order, and there is one exactly when the text has a
      non-whitespace code point; the attendees are never empty; at most two
      action items. */
  function MockMeetingExtraction(text: string, draws: seq<ActionDraw>): (m: ExtractedMeeting)
    requires |draws| >= MaxActionItems && ValidActionDraws(draws)
    ensures m.title == ExtractedTitle && m.conclusion == ExtractedConclusion
    ensures m.keyPoints <= ContentLines(text)
    ensures |m.keyPoints| == Min(MaxKeyPoints, |ContentLines(text)|)
    ensures forall p :: p in m.keyPoints ==> p in Split(text) && HasNonWhitespace(p)
    ensures m.keyPoints != [] <==> HasNonWhitespace(text)
    ensures m.attendees == ExtractParticipants(text) && m.attendees != []
    ensures m.actionItems == ExtractActionItems(text, draws) && |m.actionItems| <= MaxActionItems
  {
    ContentLinesIff(text);
    var keyPoints := Take(ContentLines(text), MaxKeyPoints);
    assert forall p :: p in keyPoints ==> p in ContentLines(text);
    ExtractedMeeting(
      ExtractedTitle,
      ExtractParticipants(text),
      keyPoints,
      ExtractActionItems(text, draws),
      ExtractedConclusion)
  }

  // ------------------------------------------------------- chat threads

  /** A chat message as `processSlackThread` reads it. */
  datatype ChatMessage = ChatMessage(user: string, message: string)

  function ThreadLine(m: ChatMessage): string {
    m.user + ": " + m.message
  }

  function ThreadLines(msgs: seq<ChatMessage>): (r: seq<string>)
    ensures |r| == |msgs|
  {
    seq(|msgs|, i requires 0 <= i < |msgs| => ThreadLine(msgs[i]))
  }

  /** The text `processSlackThread` hands to the extraction: one
      `user: message` line per message, joined by line feeds. */
  function ThreadContent(msgs: seq<ChatMessage>): string {
    Join(ThreadLines(msgs), '\n')
  }

  /** No user name and no message of the thread holds a line feed. */
  predicate NoLineFeed(msgs: seq<ChatMessage>) {
    forall x :: x in msgs ==> '\n' !in x.user && '\n' !in x.message
  }

  /** `processSlackThread` on the fixture path: the thread text goes through
      the meeting extraction. When no user or message holds a line feed, every
      thread line has content (it holds `:`), so the key points are the first
      three `user: message` lines, in message order. */
  function ProcessSlackThread(msgs: seq<ChatMessage>, draws: seq<ActionDraw>): (m: ExtractedMeeting)
    requires |draws| >= MaxActionItems && ValidActionDraws(draws)
    ensures m.title == ExtractedTitle && m.conclusion == ExtractedConclusion
    ensures m.attendees == ExtractParticipants(ThreadContent(msgs)) && m.attendees != []
    ensures m.actionItems == ExtractActionItems(ThreadContent(msgs), draws)
    ensures NoLineFeed(msgs) ==> m.keyPoints == Take(ThreadLines(msgs), MaxKeyPoints)
  {
    ThreadKeyPoints(msgs);
    MockMeetingExtraction(ThreadContent(msgs), draws)
  }

  /** Every `user: message` line has content, so the lines with content of a
      thread with no line feed in it are all its lines. */
  lemma ThreadKeyPoints(msgs: seq<ChatMessage>)
    ensures NoLineFeed(msgs) ==> ContentLines(ThreadContent(msgs)) == ThreadLines(msgs)
  {
    if !NoLineFeed(msgs) {
      return;
    }
    ThreadContentLines(msgs);
    var lines := ThreadLines(msgs);
    if |msgs| == 0 {
      assert !HasContent([]);
    } else {
      forall line | line in lines ensures HasContent(line) {
        var k :| 0 <= k < |lines| && lines[k] == line;
        assert line[|msgs[k].user|] == ':' && !IsWhitespace(':');
        assert HasNonWhitespace(line);
      }
      FilterAll(lines, HasContent);
    }
  }

  /** Splitting the thread text back into lines gives exactly one
      `user: message` line per message, in message order, when no user or
      message holds a line feed. An empty thread is one empty line. */
  lemma ThreadContentLines(msgs: seq<ChatMessage>)
    requires NoLineFeed(msgs)
    ensures |msgs| > 0 ==> Split(ThreadContent(msgs)) == ThreadLines(msgs)
    ensures |msgs| > 0 ==> |Split(ThreadContent(msgs))| == |msgs|
    ensures |msgs| == 0 ==> Split(ThreadContent(msgs)) == [[]]
  {
    var lines := ThreadLines(msgs);
    forall line | line in lines ensures '\n' !in line {
      var k :| 0 <= k < |lines| && lines[k] == line;
      assert line == msgs[k].user + ": " + msgs[k].message;
      assert msgs[k] in msgs;
    }
    if |msgs| > 0 {
      SplitJoin(lines);
    }
  }

  /** A roster member who posted in the thread is among the extracted attendees. */
  lemma ThreadPosterIsAttendee(msgs: seq<ChatMessage>, draws: seq<ActionDraw>, k: nat)
    requires |draws| >= MaxActionItems && ValidActionDraws(draws)
    requires k < |msgs| && msgs[k].user in ParticipantRoster
    ensures msgs[k].user in ProcessSlackThread(msgs, draws).attendees
  {
    var text := ThreadContent(msgs);
    var line := ThreadLines(msgs)[k];
    JoinContainsLine(ThreadLines(msgs), '\n', k);
    assert line[..|msgs[k].user|] == msgs[k].user;
    ContainsAt(line, msgs[k].user, 0);
    ContainsTransitive(text, line, msgs[k].user);
    var i :| 0 <= i < |ParticipantRoster| && ParticipantRoster[i] == msgs[k].user;
    assert MentionsRosterName(text);
  }

  // ----------------------------------------------------------------- tags

  /** The keyword buckets of `extractTags`, in the order of the object's entries. */
  const TagBuckets: seq<(string, seq<string>)> := [
    ("frontend", ["UI", "화면", "페이지", "디자인"]),
    ("backend", ["API", "서버", "데이터베이스", "DB"]),
    ("bugfix", ["버그", "오류", "수정", "에러"]),
    ("feature", ["기능", "구현", "개발", "추가"]),
    ("testing", ["테스트", "검증", "QA"])
  ]

  /** The tag given when no bucket matches. */
  const DefaultTag := "general"

  function BucketNames(buckets: seq<(string, seq<string>)>): (r: seq<string>)
    ensures |r| == |buckets|
  {
    seq(|buckets|, i requires 0 <= i < |buckets| => buckets[i].0)
  }

  /** `keywords.some(keyword => text.includes(keyword))` */
  predicate MentionsAny(text: string, keywords: seq<string>) {
    exists i :: 0 <= i < |keywords| && Contains(text, keywords[i])
  }

  /** The names of the buckets, among the given ones, that the text mentions, in bucket order. */
  function MatchedTags(text: string, buckets: seq<(string, seq<string>)>): seq<string> {
    if buckets == [] then []
    else
      var last := buckets[|buckets| - 1];
      MatchedTags(text, buckets[..|buckets| - 1]) + (if MentionsAny(text, last.1) then [last.0] else [])
  }

  /** The tags `extractTags` returns for a text. */
  function Tags(text: string): seq<string> {
    var matched := MatchedTags(text, TagBuckets);
    if matched == [] then [DefaultTag] else matched
  }

  /** `extractTags`: pushes each bucket's name, in bucket order, when the text
      mentions one of its keywords; falls back to `general`. */
  method ExtractTags(text: string) returns (tags: seq<string>)
    ensures tags == Tags(text)
  {
    var matched: seq<string> := [];
    for b := 0 to |TagBuckets|
      invariant matched == MatchedTags(text, TagBuckets[..b])
    {
      var (tag, keywords) := TagBuckets[b];
      assert TagBuckets[..b + 1][..b] == TagBuckets[..b];
      if MentionsAny(text, keywords) {
        matched := matched + [tag];
      }
    }
    assert TagBuckets[..|TagBuckets|] == TagBuckets;
    tags := if |matched| > 0 then matched else [DefaultTag];
  }

  lemma {:induction false} MatchedTagsSpec(text: string, buckets: seq<(string, seq<string>)>)
    requires NoDup(BucketNames(buckets))
    ensures IsSubsequence(MatchedTags(text, buckets), BucketNames(buckets))
    ensures NoDup(MatchedTags(text, buckets))
    ensures forall k :: 0 <= k < |buckets| ==>
      (buckets[k].0 in MatchedTags(text, buckets) <==> MentionsAny(text, buckets[k].1))
  {
    if buckets != [] {
      var n := |buckets| - 1;
      var init := buckets[..n];
      var last := buckets[n];
      BucketNamesSnoc(buckets);
      MatchedTagsSpec(text, init);
      MatchedTagsNames(text, init);
      var prev := MatchedTags(text, init);
      var cur := MatchedTags(text, buckets);
      assert cur == prev + (if MentionsAny(text, last.1) then [last.0] else []);
      assert last.0 !in prev;
      SubsequenceAppend(prev, BucketNames(init), last.0);
      if MentionsAny(text, last.1) {
        AppendFreshNoDup(prev, last.0);
      } else {
        assert cur == prev;
      }
      MatchedTagsStep(text, buckets, prev, cur);
    }
  }

  /** The names of a list of buckets with distinct names are those of all
      but the last bucket, distinct and without the last name, followed by
      the last name. */
  lemma BucketNamesSnoc(buckets: seq<(string, seq<string>)>)
    requires buckets != [] && NoDup(BucketNames(buckets))
    ensures var n := |buckets| - 1;
      && BucketNames(buckets) == BucketNames(buckets[..n]) + [buckets[n].0]
      && NoDup(BucketNames(buckets[..n]))
      && buckets[n].0 !in BucketNames(buckets[..n])
  {
    var n := |buckets| - 1;
    var names := BucketNames(buckets);
    assert BucketNames(buckets[..n]) == names[..n];
    forall p | 0 <= p < n ensures names[p] != names[n] {}
  }

  /** The membership step of MatchedTagsSpec: adding the last bucket changes
      only whether the last bucket's name is present. */
  lemma MatchedTagsStep(text: string, buckets: seq<(string, seq<string>)>, prev: seq<string>, cur: seq<string>)
    requires buckets != [] && NoDup(BucketNames(buckets))
    requires var n := |buckets| - 1;
      && cur == prev + (if MentionsAny(text, buckets[n].1) then [buckets[n].0] else [])
      && buckets[n].0 !in prev
      && forall k :: 0 <= k < n ==> (buckets[k].0 in prev <==> MentionsAny(text, buckets[k].1))
    ensures forall k :: 0 <= k < |buckets| ==> (buckets[k].0 in cur <==> MentionsAny(text, buckets[k].1))
  {
    var n := |buckets| - 1;
    var names := BucketNames(buckets);
    forall k | 0 <= k < |buckets| ensures buckets[k].0 in cur <==> MentionsAny(text, buckets[k].1) {
      if k < n {
        assert names[k] != names[n];
      }
    }
  }

  /** Every matched tag is the name of one of the buckets. */
  lemma {:induction false} MatchedTagsNames(text: string, buckets: seq<(string, seq<string>)>)
    ensures forall t :: t in MatchedTags(text, buckets) ==> t in BucketNames(buckets)
  {
    if buckets != [] {
      var n := |buckets| - 1;
      MatchedTagsNames(text, buckets[..n]);
      assert BucketNames(buckets) == BucketNames(buckets[..n]) + [buckets[n].0];
    }
  }

  lemma AppendFreshNoDup(s: seq<string>, x: string)
    requires NoDup(s) && x !in s
    ensures NoDup(s + [x])
  {
    var r := s + [x];
    forall i, j | 0 <= i < j < |r| ensures r[i] != r[j] {
      if j == |r| - 1 {
        assert r[i] == s[i];
      } else {
        assert r[i] == s[i] && r[j] == s[j];
      }
    }
  }

  /** What `extractTags` promises: never empty; `['general']` exactly when no
      bucket matches; otherwise the matched bucket names in bucket order, each
      once, and a bucket's name is present exactly when the text mentions one
      of its keywords. */
  lemma TagsSpec(text: string)
    ensures Tags(text) != [] && NoDup(Tags(text))
    ensures Tags(text) == [DefaultTag] <==>
      forall k :: 0 <= k < |TagBuckets| ==> !MentionsAny(text, TagBuckets[k].1)
    ensures Tags(text) != [DefaultTag] ==>
      && IsSubsequence(Tags(text), BucketNames(TagBuckets))
      && forall k :: 0 <= k < |TagBuckets| ==> (TagBuckets[k].0 in Tags(text) <==> MentionsAny(text, TagBuckets[k].1))
  {
    var names := BucketNames(TagBuckets);
    assert names == ["frontend", "backend", "bugfix", "feature", "testing"];
    assert NoDup(names);
    MatchedTagsSpec(text, TagBuckets);
    MatchedTagsNames(text, TagBuckets);
    var matched := MatchedTags(text, TagBuckets);
    if matched != [] {
      assert matched[0] in names;
      assert matched != [DefaultTag];
    }
  }

  // --------------------------------------------------------------- issues

  /** The keywords that make `mockIssueExtraction` turn a line into an issue. */
  const IssueKeywords: seq<string> := ["해야", "필요", "개선", "수정", "구현", "개발", "디자인", "테스트"]

  /** The lines of the meeting content that mention an issue keyword, in order. */
  function IssueLines(content: string): seq<string> {
    Filter(Split(content), line => MentionsAny(line, IssueKeywords))
  }

  /** At most this many issues are generated. */
  const MaxIssues: nat := 3

  /** The longest title kept whole, and the length it is cut to before `...`. */
  const TitleLimit: nat := 50
  const TitleCut: nat := 47

  /** `line.length > 50 ? line.substring(0, 47) + '...' : line`: never longer
      than 50; the line itself exactly when it fits; otherwise its first 47
      code points followed by `...`. */
  function IssueTitle(line: string): (t: string)
    ensures |t| <= TitleLimit
    ensures t == line <==> |line| <= TitleLimit
    ensures |line| > TitleLimit ==> |t| == TitleLimit && t[..TitleCut] == line[..TitleCut] && t[TitleCut..] == "..."
  {
    if |line| > TitleLimit then line[..TitleCut] + "..." else line
  }

  /** A title is its own title: cutting again changes nothing. */
  lemma IssueTitleIdempotent(line: string)
    ensures IssueTitle(IssueTitle(line)) == IssueTitle(line)
  {
  }

  const IssueDescriptionLead := "회의에서 논의된 사항: "

  /** The inputs one generated issue consumes, in the order the source
      evaluates them: the `Date.now()` reading of its id and the
      `Math.random()` draws of its assignee, its priority and its estimate. */
  datatype IssueDraw = IssueDraw(now: int, member: real, priority: real, hours: real)

  predicate ValidIssueDraws(draws: seq<IssueDraw>) {
    forall i :: 0 <= i < |draws| ==>
      IsDraw(draws[i].member) && IsDraw(draws[i].priority) && IsDraw(draws[i].hours)
  }

  datatype IssueSource = IssueSource(kind: string, reference: string)

  /** An issue as `mockIssueExtraction` builds it; `id` is the number the
      source renders with `toString()`. */
  datatype GeneratedIssue = GeneratedIssue(
    id: int,
    title: string,
    description: string,
    assignee: string,
    priority: Priority,
    estimatedHours: int,
    tags: seq<string>,
    status: string,
    autoGenerated: bool,
    source: IssueSource)

  const AnalysisSource := IssueSource("manual", "회의록 AI 분석")

  function MakeIssue(line: string, index: nat, d: IssueDraw): GeneratedIssue
    requires IsDraw(d.member) && IsDraw(d.priority) && IsDraw(d.hours)
  {
    GeneratedIssue(
      d.now + index,
      IssueTitle(line),
      IssueDescriptionLead + line,
      AssignRandomMember(d.member),
      AssignRandomPriority(d.priority),
      EstimateHours(d.hours),
      Tags(line),
      "todo",
      true,
      AnalysisSource)
  }

  /** `mockIssueExtraction`: one issue for each of the first three lines
      that mention an issue keyword, in line order; its id is the clock
      reading plus its index, its title the cut line, its estimate 1 to 8
      hours and its assignee a drawn member. */
  function MockIssueExtraction(content: string, draws: seq<IssueDraw>): (r: seq<GeneratedIssue>)
    requires |draws| >= MaxIssues && ValidIssueDraws(draws)
    ensures |r| == Min(MaxIssues, |IssueLines(content)|)
    ensures forall i :: 0 <= i < |r| ==>
      var line := IssueLines(content)[i];
      && r[i].id == draws[i].now + i
      && r[i].title == IssueTitle(line) && |r[i].title| <= TitleLimit
      && r[i].description == IssueDescriptionLead + line
      && r[i].assignee == AssignRandomMember(draws[i].member) && r[i].assignee in Members
      && r[i].priority == AssignRandomPriority(draws[i].priority)
      && r[i].estimatedHours == EstimateHours(draws[i].hours) && 1 <= r[i].estimatedHours <= 8
      && r[i].tags == Tags(line)
      && r[i].status == "todo" && r[i].autoGenerated && r[i].source == AnalysisSource
  {
    var lines := Take(IssueLines(content), MaxIssues);
    seq(|lines|, i requires 0 <= i < |lines| => MakeIssue(lines[i], i, draws[i]))
  }

  /** The clock never runs backwards between the issues of one batch. */
  predicate MonotoneClock(draws: seq<IssueDraw>) {
    forall i, j :: 0 <= i <= j < |draws| ==> draws[i].now <= draws[j].now
  }

  /** With a clock that does not run backwards, the ids of one batch are
      strictly increasing, hence pairwise distinct. */
  lemma IssueIdsDistinct(content: string, draws: seq<IssueDraw>)
    requires |draws| >= MaxIssues && ValidIssueDraws(draws) && MonotoneClock(draws)
    ensures var r := MockIssueExtraction(content, draws);
      forall i, j :: 0 <= i < j < |r| ==> r[i].id < r[j].id
  {
    var r := MockIssueExtraction(content, draws);
    forall i, j | 0 <= i < j < |r| ensures r[i].id < r[j].id {
      assert r[i].id == draws[i].now + i && r[j].id == draws[j].now + j;
    }
  }
}
