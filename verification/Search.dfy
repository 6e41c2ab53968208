/** What an inbox row draws for its last line, and the query that finds a row by that line. */
module Search {
  import opened Text
  import opened Rows

  /** `SYSTEM_LINE_LABELS`: marker -> words (or an explicit null). */
  type Labels = map<string, Option<string>>

  function Lookup(labels: Labels, marker: string): Option<string> {
    if marker in labels then labels[marker] else None
  }

  /** The part of a marker before its first colon. */
  function FirstSegment(s: string): (r: string)
    ensures |r| <= |s| && r == s[..|r|]
    ensures ':' !in r
    ensures ':' in s <==> |r| < |s|
    ensures |r| < |s| ==> s[|r|] == ':'
  {
    if s == "" || s[0] == ':' then "" else [s[0]] + FirstSegment(s[1..])
  }

  /** The words a marker's entry puts on a row; empty when it has none. */
  function Words(labels: Labels, marker: string): string {
    match Lookup(labels, marker)
    case Some(text) => Strip(text)
    case None => ""
  }

  function NonEmpty(s: string): Option<string> {
    if s == "" then None else Some(s)
  }

  function SystemLineLabel(labels: Labels, body: string): Option<string> {
    var marker := Strip(body);
    if labels == map[] then None
    else if Lookup(labels, marker).None? && ':' in marker
    then NonEmpty(Words(labels, FirstSegment(marker)))
    else NonEmpty(Words(labels, marker))
  }

  function DrawnLastLine(labels: Labels, kind: MessageKind, body: string, deleted: bool): Option<string> {
    if deleted then None
    else if kind.SystemLine? then SystemLineLabel(labels, body)
    else NonEmpty(Strip(body))
  }

  datatype Reason = DeletedLine | AttachmentLine | UnlabelledLine

  function LastLineReason(labels: Labels, kind: MessageKind, body: string, deleted: bool, hasAttachments: bool):
    Option<Reason>
  {
    if deleted then Some(DeletedLine)
    else if kind.SystemLine? then (if SystemLineLabel(labels, body).Some? then None else Some(UnlabelledLine))
    else if Strip(body) == "" then (if hasAttachments then Some(AttachmentLine) else None)
    else None
  }

  /** A row draws nothing exactly when a reason says why, but for a live text line with neither
      words nor attachments; and each reason stands for its own case. */
  lemma ReasonExplainsBlankLine(labels: Labels, kind: MessageKind, body: string, deleted: bool, hasAttachments: bool)
    ensures DrawnLastLine(labels, kind, body, deleted).None? <==>
      (LastLineReason(labels, kind, body, deleted, hasAttachments).Some?
       || (!deleted && kind.TextLine? && Strip(body) == "" && !hasAttachments))
    ensures var reason := LastLineReason(labels, kind, body, deleted, hasAttachments);
      && (reason == Some(DeletedLine) <==> deleted)
      && (reason == Some(AttachmentLine) <==> !deleted && kind.TextLine? && Strip(body) == "" && hasAttachments)
      && (reason == Some(UnlabelledLine) <==>
            !deleted && kind.SystemLine? && DrawnLastLine(labels, kind, body, deleted).None?)
  {
  }

  predicate StartsWith(s: string, prefix: string) {
    |prefix| <= |s| && s[..|prefix|] == prefix
  }

  /** One registry entry matches the needle and stands for this body. */
  ghost predicate EntryMatches(labels: Labels, fold: char -> char, needle: string, body: string, marker: string) {
    && marker in labels && labels[marker].Some? && labels[marker].value != ""
    && Contains(FoldCase(fold, labels[marker].value), FoldCase(fold, needle))
    && (body == marker || StartsWith(body, marker + ":"))
  }

  /** `_last_line_q`, over the last row's own columns. */
  ghost predicate QueryMatches(labels: Labels, fold: char -> char, needle: string, m: Message) {
    || (m.sender.Some? && m.Live() && Contains(FoldCase(fold, m.body), FoldCase(fold, needle)))
    || (m.kind.SystemLine? && m.Live() && exists marker :: EntryMatches(labels, fold, needle, m.body, marker))
  }

  /** The needle is a word somebody can see on the row. */
  ghost predicate DrawnMatches(labels: Labels, fold: char -> char, needle: string, m: Message) {
    var drawn := DrawnLastLine(labels, m.kind, m.body, !m.Live());
    drawn.Some? && Contains(FoldCase(fold, drawn.value), FoldCase(fold, needle))
  }

  predicate Needle(needle: string) {
    needle != "" && Trimmed(needle)
  }

  /** Every word found in `small` is found in `big`. */
  ghost predicate Covers(fold: char -> char, big: string, small: string) {
    small == "" || Contains(FoldCase(fold, big), FoldCase(fold, small))
  }

  /** A registry whose colon-carrying markers say nothing their own first segment does not say,
      and, where a body can be spelled exactly like the marker, nothing less either. */
  ghost predicate Coherent(labels: Labels, fold: char -> char) {
    forall marker | marker in labels && labels[marker].Some? && ':' in marker && !IsSpace(marker[0]) ::
      && Covers(fold, Words(labels, FirstSegment(marker)), Words(labels, marker))
      && (Trimmed(marker) ==> Covers(fold, Words(labels, marker), Words(labels, FirstSegment(marker))))
  }

  ghost predicate SearchAgrees(labels: Labels, fold: char -> char) {
    forall m: Message, needle | Drawable(m) && Needle(needle) ::
      QueryMatches(labels, fold, needle, m) <==> DrawnMatches(labels, fold, needle, m)
  }

  lemma CoveredWordsMatch(fold: char -> char, big: string, small: string, needle: string)
    requires Covers(fold, big, small) && needle != ""
    requires Contains(FoldCase(fold, small), FoldCase(fold, needle))
    ensures Contains(FoldCase(fold, big), FoldCase(fold, needle))
  {
    VisibleWords(fold, small, needle);
    ContainsTrans(FoldCase(fold, big), FoldCase(fold, small), FoldCase(fold, needle));
  }

  lemma FirstSegmentOfPrefix(s: string, marker: string)
    requires StartsWith(s, marker + ":")
    ensures ':' in s
    ensures FirstSegment(s) == if ':' in marker then FirstSegment(marker) else marker
  {
    var t, u := FirstSegment(s), FirstSegment(marker);
    assert s[|marker|] == (marker + ":")[|marker|] == ':';
    assert forall i | 0 <= i < |marker| :: s[i] == (marker + ":")[i] == marker[i];
    assert forall i | 0 <= i < |t| :: s[i] != ':' by {
      assert forall i | 0 <= i < |t| :: t[i] == s[i] && t[i] in t;
    }
    assert forall i | 0 <= i < |u| :: s[i] != ':' by {
      assert forall i | 0 <= i < |u| :: u[i] == marker[i] && u[i] in u;
    }
    assert |t| == |u|;
  }

  /** The words of the entry that matched are covered by the words the row draws. */
  lemma DrawnCoversEntry(labels: Labels, fold: char -> char, needle: string, body: string, marker: string)
    requires Coherent(labels, fold) && KeepsSpaces(fold) && Needle(needle) && Trimmed(body)
    requires EntryMatches(labels, fold, needle, body, marker)
    ensures SystemLineLabel(labels, body).Some?
    ensures Contains(FoldCase(fold, SystemLineLabel(labels, body).value), FoldCase(fold, needle))
  {
    StripTrims(body);
    StripKeepsMatches(fold, labels[marker].value, needle);
    var words := Words(labels, marker);
    assert Contains(FoldCase(fold, words), FoldCase(fold, needle));
    if body != marker {
      FirstSegmentOfPrefix(body, marker);
      var first := FirstSegment(body);
      if ':' in marker {
        assert marker[0] == body[0];
        CoveredWordsMatch(fold, Words(labels, first), words, needle);
      }
      assert Contains(FoldCase(fold, Words(labels, first)), FoldCase(fold, needle));
      if Lookup(labels, body).Some? {
        CoveredWordsMatch(fold, Words(labels, body), Words(labels, first), needle);
      }
    }
    var drawn := Words(labels, if Lookup(labels, body).None? && ':' in body then FirstSegment(body) else body);
    assert Contains(FoldCase(fold, drawn), FoldCase(fold, needle));
    VisibleWords(fold, drawn, needle);
  }

  lemma VisibleWords(fold: char -> char, words: string, needle: string)
    requires Contains(FoldCase(fold, words), FoldCase(fold, needle)) && needle != ""
    ensures words != ""
  {
    assert words == "" ==> FoldCase(fold, words) == "";
    if words == "" {
      EmptyHoldsNothing(FoldCase(fold, needle));
    }
  }

  lemma ColonFollows(s: string, first: string)
    requires |first| < |s| && first == s[..|first|] && s[|first|] == ':'
    ensures StartsWith(s, first + ":")
  {
    assert s[..|first| + 1] == first + ":";
  }

  lemma ColonEndsFirstSegment(s: string)
    requires ':' in s
    ensures StartsWith(s, FirstSegment(s) + ":")
  {
    ColonFollows(s, FirstSegment(s));
  }

  lemma EntryOfDrawn(labels: Labels, fold: char -> char, needle: string, body: string)
    requires KeepsSpaces(fold) && Needle(needle) && Trimmed(body)
    requires SystemLineLabel(labels, body).Some?
    requires Contains(FoldCase(fold, SystemLineLabel(labels, body).value), FoldCase(fold, needle))
    ensures exists marker :: EntryMatches(labels, fold, needle, body, marker)
  {
    StripTrims(body);
    var marker := if Lookup(labels, body).None? && ':' in body then FirstSegment(body) else body;
    assert SystemLineLabel(labels, body) == Some(Words(labels, marker));
    StripKeepsMatches(fold, labels[marker].value, needle);
    assert labels[marker].value != "" by {
      VisibleWords(fold, labels[marker].value, needle);
    }
    if marker != body {
      ColonEndsFirstSegment(body);
    }
    assert EntryMatches(labels, fold, needle, body, marker);
  }

  /** With a coherent registry, a row is found by a word exactly when it draws that word. */
  lemma RowIsFoundByWhatItDraws(labels: Labels, fold: char -> char, m: Message, needle: string)
    requires Coherent(labels, fold) && KeepsSpaces(fold) && Drawable(m) && Needle(needle)
    ensures QueryMatches(labels, fold, needle, m) <==> DrawnMatches(labels, fold, needle, m)
  {
    if m.kind.TextLine? {
      StripKeepsMatches(fold, m.body, needle);
      if Contains(FoldCase(fold, Strip(m.body)), FoldCase(fold, needle)) {
        VisibleWords(fold, Strip(m.body), needle);
      }
    } else if m.Live() {
      if QueryMatches(labels, fold, needle, m) {
        var marker :| EntryMatches(labels, fold, needle, m.body, marker);
        DrawnCoversEntry(labels, fold, needle, m.body, marker);
      }
      if DrawnMatches(labels, fold, needle, m) {
        EntryOfDrawn(labels, fold, needle, m.body);
      }
    }
  }

  /** Some length no registry key reaches. */
  lemma {:induction false} LongerThanAll(keys: set<string>) returns (n: nat)
    ensures forall k | k in keys :: |k| < n
    decreases keys
  {
    n := 0;
    if keys != {} {
      var k :| k in keys;
      n := LongerThanAll(keys - {k});
      n := if n > |k| then n else |k| + 1;
    }
  }

  function SystemRow(body: string): Message {
    Message(0, 1, 1, None, SystemLine, body, [], None, "", None, None, EPOCH + 1)
  }

  /** A marker that says more than its first segment: give it an argument nobody registered, and
      the query finds a row that draws the first segment's words. */
  lemma LouderMarkerDisagrees(labels: Labels, fold: char -> char, marker: string)
    requires KeepsSpaces(fold)
    requires marker in labels && labels[marker].Some? && ':' in marker && !IsSpace(marker[0])
    requires !Covers(fold, Words(labels, FirstSegment(marker)), Words(labels, marker))
    ensures !SearchAgrees(labels, fold)
  {
    var needle := Words(labels, marker);
    var n := LongerThanAll(labels.Keys);
    var body := marker + ":" + seq(n + 1, _ => 'x');
    assert body !in labels && body[0] == marker[0] && body[|body| - 1] == 'x';
    assert StartsWith(body, marker + ":");
    FirstSegmentOfPrefix(body, marker);
    StripTrims(body);
    StripTrims(labels[marker].value);
    ContainsSelf(FoldCase(fold, needle));
    StripKeepsMatches(fold, labels[marker].value, needle);
    assert EntryMatches(labels, fold, needle, body, marker);
    var m := SystemRow(body);
    assert Drawable(m) && QueryMatches(labels, fold, needle, m) && !DrawnMatches(labels, fold, needle, m);
  }

  /** A marker that says less than its first segment: a row spelled exactly like it is found by
      the first segment's words and draws its own. */
  lemma QuieterMarkerDisagrees(labels: Labels, fold: char -> char, marker: string)
    requires KeepsSpaces(fold)
    requires marker in labels && labels[marker].Some? && ':' in marker && Trimmed(marker)
    requires !Covers(fold, Words(labels, marker), Words(labels, FirstSegment(marker)))
    ensures !SearchAgrees(labels, fold)
  {
    var first := FirstSegment(marker);
    var needle := Words(labels, first);
    StripTrims(marker);
    StripTrims(labels[first].value);
    ContainsSelf(FoldCase(fold, needle));
    StripKeepsMatches(fold, labels[first].value, needle);
    VisibleWords(fold, labels[first].value, needle);
    ColonEndsFirstSegment(marker);
    assert EntryMatches(labels, fold, needle, marker, first);
    var m := SystemRow(marker);
    assert Drawable(m) && QueryMatches(labels, fold, needle, m) && !DrawnMatches(labels, fold, needle, m);
  }

  /** Search agrees with what rows draw, on every stored row and every needle, exactly when the
      label registry is coherent: something a deployment can check when it boots. */
  lemma SearchAgreesIffRegistryCoherent(labels: Labels, fold: char -> char)
    requires KeepsSpaces(fold)
    ensures SearchAgrees(labels, fold) <==> Coherent(labels, fold)
  {
    if Coherent(labels, fold) {
      forall m: Message, needle | Drawable(m) && Needle(needle)
        ensures QueryMatches(labels, fold, needle, m) <==> DrawnMatches(labels, fold, needle, m)
      {
        RowIsFoundByWhatItDraws(labels, fold, m, needle);
      }
    } else {
      var marker :| marker in labels && labels[marker].Some? && ':' in marker && !IsSpace(marker[0])
        && !(&& Covers(fold, Words(labels, FirstSegment(marker)), Words(labels, marker))
             && (Trimmed(marker) ==> Covers(fold, Words(labels, marker), Words(labels, FirstSegment(marker)))));
      if !Covers(fold, Words(labels, FirstSegment(marker)), Words(labels, marker)) {
        LouderMarkerDisagrees(labels, fold, marker);
      } else {
        QuieterMarkerDisagrees(labels, fold, marker);
      }
    }
  }

  /** Markers without a colon of their own are always safe. */
  lemma ColonFreeRegistryAgrees(labels: Labels, fold: char -> char)
    requires KeepsSpaces(fold) && forall marker | marker in labels :: ':' !in marker
    ensures SearchAgrees(labels, fold)
  {
    SearchAgreesIffRegistryCoherent(labels, fold);
  }

  /** The registry `{"a:b": "X"}` is the smallest that is not: some row is found by a word it does
      not draw, whatever the folding. */
  lemma ColonInMarkerMisleads(fold: char -> char)
    requires KeepsSpaces(fold)
    ensures !SearchAgrees(map["a:b" := Some("X")], fold)
  {
    var labels: Labels := map["a:b" := Some("X")];
    var marker := "a:b";
    StripTrims("X");
    assert marker[0] == 'a' && marker[1] == ':';
    assert FirstSegment(marker) != marker;
    assert Words(labels, FirstSegment(marker)) == "" && Words(labels, marker) == "X";
    assert FoldCase(fold, "") == "";
    if Contains("", FoldCase(fold, "X")) {
      EmptyHoldsNothing(FoldCase(fold, "X"));
    }
    LouderMarkerDisagrees(labels, fold, marker);
  }
}
