/**
 * The alert panel (components/AlertPanel.tsx): a caption and a colour per alert
 * type, the percentage pulled out of an alert's message, and the header.
 */
module AlertPanel {
  import opened Wrappers
  import opened Types
  import opened Strings
  import opened Anomaly
  import opened Alerts

  /** The three accent colours of the panel. */
  datatype Colour = Yellow | Green | Red

  /** The short caption of an alert type. */
  function TypeLabel(kind: AlertType): string {
    match kind
    case VolumeSpike => "VOL"
    case PriceSurge => "PUMP"
    case PriceDump => "DUMP"
  }

  /** The accent colour of an alert type. */
  function TypeColour(kind: AlertType): Colour {
    match kind
    case VolumeSpike => Yellow
    case PriceSurge => Green
    case PriceDump => Red
  }

  /** Label and colour each tell the three types apart, so they always agree. */
  lemma LabelAndColourAgree(k1: AlertType, k2: AlertType)
    ensures TypeLabel(k1) == TypeLabel(k2) <==> k1 == k2
    ensures TypeColour(k1) == TypeColour(k2) <==> k1 == k2
    ensures TypeLabel(k1) == TypeLabel(k2) <==> TypeColour(k1) == TypeColour(k2)
  {
    assert "VOL" != "PUMP" && "PUMP" != "DUMP" && "VOL" != "DUMP" by {
      assert "VOL"[0] != "PUMP"[0] && "PUMP"[0] != "DUMP"[0];
      assert |"VOL"| != |"DUMP"|;
    }
  }

  /**
   * The detail column: the text after the first `(` (up to the next `(`) with
   * its first `)` removed, or the whole message when there is no `(` or that
   * text is empty.
   */
  function Detail(message: string): string {
    match SecondPiece(message, '(')
    case None => message
    case Some(piece) =>
      var d := ReplaceFirst(piece, ")", "");
      if d == "" then message else d
  }

  /** A message without `(` is shown whole. */
  lemma DetailWithoutParen(message: string)
    requires '(' !in message
    ensures Detail(message) == message
  {
    IndexOfAbsentChar(message, '(');
  }

  /**
   * A message built as `<caption> (<detail>)`, with no parenthesis in the caption
   * or the detail, shows exactly `<detail>`.
   */
  lemma DetailRoundTrip(caption: string, detail: string)
    requires '(' !in caption && '(' !in detail && ')' !in detail && detail != ""
    ensures Detail(caption + " (" + detail + ")") == detail
  {
    var message := caption + " (" + detail + ")";
    var head, tail := caption + " ", "(" + detail + ")";
    assert message == head + tail;
    IndexOfCharAfter(head, tail, '(');
    assert IndexOf(tail, ['(']) == Some(0);
    var rest := message[|head| + 1..];
    assert rest == detail + ")";
    IndexOfAbsentChar(rest, '(');
    assert SecondPiece(message, '(') == Some(rest);
    IndexOfCharAfter(detail, ")", ')');
    assert IndexOf(")", [')']) == Some(0);
    assert ReplaceFirst(rest, ")", "") == detail;
  }

  /**
   * The scanner's messages show their percentage: a message built by the
   * scanner displays the formatted number followed by `%`, as long as the
   * caption and the formatted number contain no parenthesis.
   */
  lemma ScannerAlertDetail(an: Anomaly, tr: Translation, toFixed: (real, nat) -> string)
    requires '(' !in tr.alertVolume && '(' !in tr.alertSurge && '(' !in tr.alertDump
    requires forall x: real, d: nat :: '(' !in toFixed(x, d) && ')' !in toFixed(x, d)
    ensures an.kind == Volume ==> Detail(AlertMessage(an, tr, toFixed)) == toFixed(an.diff, 1) + "%"
    ensures an.kind != Volume ==> Detail(AlertMessage(an, tr, toFixed)) == toFixed(Abs(an.diff), 2) + "%"
  {
    var caption := if an.kind == Volume then tr.alertVolume else if an.diff > 0.0 then tr.alertSurge else tr.alertDump;
    var number := if an.kind == Volume then toFixed(an.diff, 1) else toFixed(Abs(an.diff), 2);
    assert AlertMessage(an, tr, toFixed) == caption + " (" + (number + "%") + ")";
    DetailRoundTrip(caption, number + "%");
  }

  /** A test alert shows its fixed percentage. */
  lemma TestAlertDetail(kind: AlertType, symbol: string, now: int, tr: Translation)
    requires '(' !in tr.alertVolume && '(' !in tr.alertSurge && '(' !in tr.alertDump
    ensures Detail(TestAlertFor(kind, symbol, now, tr).message) == if kind == VolumeSpike then "45.2%" else "12.5%"
  {
    var mock := if kind == VolumeSpike then "45.2" else "12.5";
    assert TestAlertFor(kind, symbol, now, tr).message == ("[TEST] " + TypeText(kind, tr)) + " (" + (mock + "%") + ")";
    DetailRoundTrip("[TEST] " + TypeText(kind, tr), mock + "%");
  }

  /** The header: the event count (absent for "no alerts"), the clear button and the test button. */
  datatype Header = Header(events: Option<nat>, showClear: bool, showTest: bool)

  function HeaderOf(alerts: seq<AlertLog>, hasTest: bool): Header {
    Header(if |alerts| > 0 then Some(|alerts|) else None, |alerts| > 0, hasTest)
  }

  /**
   * After an alert has been offered the header counts between 1 and 50 events
   * and offers the clear button; after clearing it shows neither. The test
   * button depends only on whether a test handler is supplied.
   */
  lemma HeaderTracksLog(log: seq<AlertLog>, a: AlertLog, now: int, hasTest: bool)
    requires |log| <= Capacity
    ensures !IsDuplicate(log, a, now) ==>
      var h := HeaderOf(Offered(log, a, now), hasTest);
      h.events.Some? && 1 <= h.events.value <= Capacity && h.showClear
    ensures HeaderOf([], hasTest) == Header(None, false, hasTest)
    ensures HeaderOf(log, hasTest).showTest == hasTest
  {
    OfferedShape(log, a, now);
  }

  /** The symbol column of an alert. */
  function SymbolShown(a: AlertLog): string {
    BaseAsset(a.symbol)
  }
}
