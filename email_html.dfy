/**
 * The digest renderers `generateEmailHtml`, `getColor` and `translateSentiment`, which the cron
 * route and both scripts each define with the same body (the test script differs only in its
 * header title). The style sheet and the template's indentation are not modelled; the date shown
 * in the header is a parameter.
 */
module EmailHtml {
  import opened Domain

  const PositiveColor: string := "#22c55e"
  const NegativeColor: string := "#ef4444"
  const NeutralColor: string := "#9ca3af"

  const PositiveLabel: string := "看多"
  const NegativeLabel: string := "看空"
  const NeutralLabel: string := "中立"

  /** Header title of the daily digest (cron route and CLI script). */
  const DailyTitle: string := "每日投資速報"
  /** Marker the test script appends to the header title. */
  const TestMarker: string := " (測試版)"
  /** Header title of the test script's digest. */
  const TestTitle: string := DailyTitle + TestMarker

  /** Colour of a card's left border: total over all strings, neutral for anything unrecognised. */
  function GetColor(sentiment: string): (color: string)
    ensures color == PositiveColor <==> sentiment == "POSITIVE"
    ensures color == NegativeColor <==> sentiment == "NEGATIVE"
    ensures color == NeutralColor <==> sentiment != "POSITIVE" && sentiment != "NEGATIVE"
  {
    if sentiment == "POSITIVE" then PositiveColor
    else if sentiment == "NEGATIVE" then NegativeColor
    else NeutralColor
  }

  /** Label shown in a card's badge: total over all strings, neutral for anything unrecognised. */
  function TranslateSentiment(sentiment: string): (badge: string)
    ensures badge == PositiveLabel <==> sentiment == "POSITIVE"
    ensures badge == NegativeLabel <==> sentiment == "NEGATIVE"
    ensures badge == NeutralLabel <==> sentiment != "POSITIVE" && sentiment != "NEGATIVE"
  {
    if sentiment == "POSITIVE" then PositiveLabel
    else if sentiment == "NEGATIVE" then NegativeLabel
    else NeutralLabel
  }

  /** The colour and the label classify sentiments the same way. */
  lemma ColorAndLabelAgree(a: string, b: string)
    ensures GetColor(a) == GetColor(b) <==> TranslateSentiment(a) == TranslateSentiment(b)
  {
  }

  function LowerChar(c: char): char {
    if 'A' <= c <= 'Z' then (c as int + 32) as char else c
  }

  /** `toLowerCase` restricted to ASCII letters: used for the badge's CSS class. */
  function ToLowerAscii(s: string): (r: string)
    ensures |r| == |s|
    ensures forall k :: 0 <= k < |s| ==> r[k] == LowerChar(s[k])
    ensures forall k :: 0 <= k < |r| ==> !('A' <= r[k] <= 'Z')
  {
    if s == [] then [] else [LowerChar(s[0])] + ToLowerAscii(s[1..])
  }

  /** The three sentiment literals select the three badge classes of the style sheet. */
  lemma BadgeClasses()
    ensures ToLowerAscii("POSITIVE") == "positive"
    ensures ToLowerAscii("NEGATIVE") == "negative"
    ensures ToLowerAscii("NEUTRAL") == "neutral"
  {
    LowerPositive();
    LowerNegative();
    LowerNeutral();
  }

  lemma LowerPositive()
    ensures ToLowerAscii("POSITIVE") == "positive"
  {
    LowerMatches("POSITIVE", "positive");
  }

  lemma LowerNegative()
    ensures ToLowerAscii("NEGATIVE") == "negative"
  {
    LowerMatches("NEGATIVE", "negative");
  }

  lemma LowerNeutral()
    ensures ToLowerAscii("NEUTRAL") == "neutral"
  {
    LowerMatches("NEUTRAL", "neutral");
  }

  lemma LowerMatches(s: string, t: string)
    requires |s| == |t| && forall k :: 0 <= k < |s| ==> LowerChar(s[k]) == t[k]
    ensures ToLowerAscii(s) == t
  {
  }

  /** `item.summary || ''`: a missing summary renders as the empty string. */
  function SummaryText(summary: Option<string>): (text: string)
    ensures summary == Some(text) || (summary.None? && text == "")
  {
    if summary.Some? then summary.value else ""
  }

  /** A card up to its tag name: the left border in the sentiment's colour, then the title row. */
  function CardHead(sentiment: string): string {
    "<div class=\"card\" style=\"border-left: 5px solid " + GetColor(sentiment) + "\">"
    + "<div class=\"title-row\">"
    + "<span class=\"company\">"
  }

  /** The middle of a card after the tag name: the badge, then the quoted summary. */
  function CardBadgeAndSummary(a: Assessment): string {
    "</span>"
    + "<span class=\"badge " + ToLowerAscii(a.sentiment) + "\">" + TranslateSentiment(a.sentiment) + "</span>"
    + "</div>"
    + "<div class=\"summary\">\"" + SummaryText(a.summary) + "\"</div>"
  }

  /** The end of a card: the point list, then the card's closing tag. */
  function CardPoints(points: seq<string>): string {
    "<ul>" + RenderPoints(points) + "</ul>" + "</div>"
  }

  /**
   * One card per digest entry: coloured border, tag name, badge, quoted summary and point list.
   * The card opens with the border in the sentiment's colour, shows the tag's name right after
   * the title row's opening, and closes with the entry's point list.
   */
  function RenderCard(entry: DigestEntry): (card: string)
    ensures var head, tail := CardHead(entry.assessment.sentiment), CardPoints(entry.assessment.points);
      && |head| + |entry.name| + |tail| <= |card|
      && card[..|head|] == head
      && card[|head|..|head| + |entry.name|] == entry.name
      && card[|card| - |tail|..] == tail
  {
    var a := entry.assessment;
    var head, middle, tail := CardHead(a.sentiment), CardBadgeAndSummary(a), CardPoints(a.points);
    CardLayout(head, entry.name, middle, tail);
    head + entry.name + middle + tail
  }

  /** Where the head, the name and the tail sit in `head + name + middle + tail`. */
  lemma CardLayout(head: string, name: string, middle: string, tail: string)
    ensures var card := head + name + middle + tail;
      && |head| + |name| + |tail| <= |card|
      && card[..|head|] == head
      && card[|head|..|head| + |name|] == name
      && card[|card| - |tail|..] == tail
  {
    Pieces(head, name, middle + tail);
    Pieces(head, name + middle, tail);
  }

  /** Where the three pieces of `a + b + c` sit. */
  lemma Pieces(a: string, b: string, c: string)
    ensures var s := a + b + c;
      && |s| == |a| + |b| + |c|
      && s[..|a|] == a && s[|a|..|a| + |b|] == b && s[|a| + |b|..] == c
  {
  }

  /** Concatenation of rendered parts, as `join('')` does. */
  function Join(parts: seq<string>): string {
    if parts == [] then "" else parts[0] + Join(parts[1..])
  }

  /** `items.map(render)`: one rendered part per item, in item order. */
  function MapRender<T>(render: T -> string, items: seq<T>): (parts: seq<string>)
    ensures |parts| == |items|
    ensures forall k :: 0 <= k < |items| ==> parts[k] == render(items[k])
  {
    if items == [] then [] else [render(items[0])] + MapRender(render, items[1..])
  }

  function PointItem(point: string): string {
    "<li>" + point + "</li>"
  }

  /**
   * `item.points.map(p => <li>p</li>).join('')`: at least an empty `<li></li>` per point, so
   * the list is empty exactly when there are no points.
   */
  function RenderPoints(points: seq<string>): (html: string)
    ensures |html| >= 9 * |points|
    ensures html == "" <==> points == []
  {
    ItemsLength(points);
    Join(MapRender(PointItem, points))
  }

  lemma {:induction false} ItemsLength(points: seq<string>)
    ensures |Join(MapRender(PointItem, points))| >= 9 * |points|
  {
    if points != [] {
      var parts := MapRender(PointItem, points);
      assert parts[1..] == MapRender(PointItem, points[1..]);
      ItemsLength(points[1..]);
    }
  }

  /** `assessments.map(item => card).join('')` */
  function RenderCards(entries: seq<DigestEntry>): string {
    Join(MapRender(RenderCard, entries))
  }

  const HeaderOpen: string := "<!DOCTYPE html><html><head></head><body><div class=\"container\"><div class=\"header\"><h2>"

  /** The rest of the header after the title: the date line, then the opening of the card list. */
  function HeaderClose(date: string): string {
    "</h2><p>" + date + "</p></div><div class=\"content\">"
  }

  function Prologue(title: string, date: string): string {
    HeaderOpen + title + HeaderClose(date)
  }

  const Epilogue: string := "</div><div class=\"footer\"><p>StockMind AI Daily Report</p></div></div></body></html>"

  /**
   * `generateEmailHtml`, with the header title and the formatted date as parameters: the header,
   * then the cards, then the footer.
   */
  function EmailHtml(title: string, date: string, entries: seq<DigestEntry>): (html: string)
    ensures var head, cards := Prologue(title, date), RenderCards(entries);
      && |head| + |cards| + |Epilogue| == |html|
      && html[..|head|] == head
      && html[|head|..|head| + |cards|] == cards
      && html[|head| + |cards|..] == Epilogue
  {
    var head, cards := Prologue(title, date), RenderCards(entries);
    Pieces(head, cards, Epilogue);
    head + cards + Epilogue
  }

  /** The daily digest page of the cron route and the CLI script, for the day's date. */
  function DailyPage(date: string): seq<DigestEntry> -> string {
    entries => EmailHtml(DailyTitle, date, entries)
  }

  /** The test script's page: the same template under the marked title. */
  function TestPage(date: string): seq<DigestEntry> -> string {
    entries => EmailHtml(TestTitle, date, entries)
  }

  /** A missing summary renders exactly like an empty one. */
  lemma MissingSummaryIsEmpty(name: string, points: seq<string>, sentiment: string)
    ensures RenderCard(DigestEntry(name, Assessment(points, sentiment, None)))
         == RenderCard(DigestEntry(name, Assessment(points, sentiment, Some(""))))
  {
  }

  /** Joining a concatenation joins each part in order. */
  lemma {:induction false} JoinAppend(a: seq<string>, b: seq<string>)
    ensures Join(a + b) == Join(a) + Join(b)
  {
    if a == [] {
      assert a + b == b;
    } else {
      assert (a + b)[1..] == a[1..] + b;
      JoinAppend(a[1..], b);
    }
  }

  /** Splitting the items at k splits the joined rendering around the k-th part. */
  lemma {:induction false} JoinMapSplit<T>(render: T -> string, items: seq<T>, k: nat)
    requires k < |items|
    ensures Join(MapRender(render, items))
         == Join(MapRender(render, items[..k])) + render(items[k]) + Join(MapRender(render, items[k + 1..]))
  {
    var parts := MapRender(render, items);
    var before, after := MapRender(render, items[..k]), MapRender(render, items[k + 1..]);
    var from := [parts[k]] + after;
    assert parts == before + from;
    assert from[0] == parts[k] && from[1..] == after;
    JoinAppend(before, from);
  }

  /** The k-th card of the page is the k-th entry's card: one card per entry, in input order. */
  lemma CardsInOrder(entries: seq<DigestEntry>, k: nat)
    requires k < |entries|
    ensures RenderCards(entries)
         == RenderCards(entries[..k]) + RenderCard(entries[k]) + RenderCards(entries[k + 1..])
  {
    JoinMapSplit(RenderCard, entries, k);
  }

  /**
   * The page starts with the header, the cards of the entries before the k-th, then the k-th
   * entry's card: each card sits right after the ones before it.
   */
  lemma CardAt(title: string, date: string, entries: seq<DigestEntry>, k: nat)
    requires k < |entries|
    ensures Prologue(title, date) + RenderCards(entries[..k]) + RenderCard(entries[k]) <= EmailHtml(title, date, entries)
  {
    CardsInOrder(entries, k);
    PrefixOfParts(EmailHtml(title, date, entries), Prologue(title, date), RenderCards(entries),
      RenderCards(entries[..k]), RenderCard(entries[k]), RenderCards(entries[k + 1..]), Epilogue);
  }

  /** In `s == h + c + e` with `c == a + m + b`, `s` starts with `h + a + m`. */
  lemma PrefixOfParts(s: string, h: string, c: string, a: string, m: string, b: string, e: string)
    requires s == h + c + e && c == a + m + b
    ensures h + a + m <= s
  {
    assert s == (h + a + m) + (b + e);
  }

  /** The header title sits right after the opening `<h2>`. */
  lemma TitleInHeader(title: string, date: string, entries: seq<DigestEntry>)
    ensures var html := EmailHtml(title, date, entries);
      |HeaderOpen| + |title| <= |html| && html[|HeaderOpen|..|HeaderOpen| + |title|] == title
  {
    InfixAt(HeaderOpen, title, HeaderClose(date), RenderCards(entries), Epilogue);
  }

  /** The test page is the daily page with the marker inserted right after the daily title. */
  lemma TestPageMarked(date: string, entries: seq<DigestEntry>)
    ensures var daily, n := EmailHtml(DailyTitle, date, entries), |HeaderOpen| + |DailyTitle|;
      n <= |daily| && EmailHtml(TestTitle, date, entries) == daily[..n] + TestMarker + daily[n..]
  {
    var rest := HeaderClose(date) + RenderCards(entries) + Epilogue;
    PageAroundTitle(DailyTitle, date, entries);
    PageAroundTitle(TestTitle, date, entries);
    InsertAfter(HeaderOpen, DailyTitle, TestMarker, rest);
  }

  lemma PageAroundTitle(title: string, date: string, entries: seq<DigestEntry>)
    ensures EmailHtml(title, date, entries) == HeaderOpen + title + (HeaderClose(date) + RenderCards(entries) + Epilogue)
  {
    Regroup(HeaderOpen, title, HeaderClose(date), RenderCards(entries), Epilogue);
  }

  lemma Regroup(h: string, t: string, a: string, b: string, c: string)
    ensures h + t + a + b + c == h + t + (a + b + c)
  {
  }

  /** Inserting `m` after `h + t` in `h + t + rest` gives `h + (t + m) + rest`. */
  lemma InsertAfter(h: string, t: string, m: string, rest: string)
    ensures var s, n := h + t + rest, |h| + |t|;
      n <= |s| && s[..n] + m + s[n..] == h + (t + m) + rest
  {
    var s, n := h + t + rest, |h| + |t|;
    assert s == (h + t) + rest;
    assert s[..n] == h + t && s[n..] == rest;
  }

  /** In `h + t + a + b + c`, the part `t` starts right after `h`. */
  lemma InfixAt(h: string, t: string, a: string, b: string, c: string)
    ensures var s := h + t + a + b + c;
      |h| + |t| <= |s| && s[|h|..|h| + |t|] == t && (h + t)[|h|..] == t
  {
    var s := h + t + a + b + c;
    assert s == (h + t) + (a + b + c);
    assert s[..|h| + |t|] == h + t;
  }

  /** Index of the first '<' in `s`, or `|s|` when there is none. */
  function IndexOfLt(s: string): (k: nat)
    ensures k <= |s|
    ensures forall m :: 0 <= m < k ==> s[m] != '<'
    ensures k < |s| ==> s[k] == '<'
  {
    if s == [] || s[0] == '<' then 0 else 1 + IndexOfLt(s[1..])
  }

  /** Reads back a sequence of `<li>…</li>` items whose texts contain no '<'. */
  function ParsePoints(html: string): Option<seq<string>>
    decreases |html|
  {
    if html == [] then Some([])
    else if |html| < 4 || html[..4] != "<li>" then None
    else
      var rest := html[4..];
      var k := IndexOfLt(rest);
      var after := rest[k..];
      if |after| < 5 || after[..5] != "</li>" then None
      else match ParsePoints(after[5..])
        case None => None
        case Some(tail) => Some([rest[..k]] + tail)
  }

  /**
   * The point list keeps every point, in point order: as long as no point contains '<'
   * (the template does not escape its text), the rendered list reads back as the points.
   */
  lemma {:induction false} PointsRoundTrip(points: seq<string>)
    requires forall p :: p in points ==> '<' !in p
    ensures ParsePoints(RenderPoints(points)) == Some(points)
  {
    if points != [] {
      var p := points[0];
      var tailHtml := RenderPoints(points[1..]);
      var parts := MapRender(PointItem, points);
      assert parts[0] == PointItem(p) && parts[1..] == MapRender(PointItem, points[1..]);
      assert RenderPoints(points) == PointItem(p) + tailHtml;
      assert points[0] in points;
      ReadItem(p, tailHtml);
      PointsRoundTrip(points[1..]);
      assert [p] + points[1..] == points;
    }
  }

  /** One item is read back in front of whatever follows it. */
  lemma ReadItem(p: string, tail: string)
    requires '<' !in p
    ensures ParsePoints(PointItem(p) + tail)
         == (match ParsePoints(tail) case None => None case Some(items) => Some([p] + items))
  {
    var html := PointItem(p) + tail;
    var rest := p + "</li>" + tail;
    assert html == "<li>" + rest;
    assert html[4..] == rest;
    var k := IndexOfLt(rest);
    assert rest[|p|] == '<';
    assert k == |p|;
    assert rest[..k] == p;
    assert rest[k..] == "</li>" + tail;
    assert (rest[k..])[5..] == tail;
  }
}
