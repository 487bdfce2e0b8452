/**
 * The reading of a transcript timestamp back into seconds. Neither route
 * parses timestamps; this is the independent reference against which both
 * timestamp rules (`HH:MM:SS`/`MM:SS` for captions, unbounded `MM:SS` for
 * speech-to-text segments) are proved to be faithful renderings.
 */
module Timecode {
  import opened Wrappers
  import opened JsStrings
  import opened Decimal

  /**
   * Seconds denoted by `M:SS` (two fields) or `H:MM:SS` (three fields), where
   * each field is a non-empty run of digits and the fields after the first
   * are below 60; None for anything else.
   */
  function ParseTimestamp(t: string): Option<nat> {
    var f := Split(t, ':');
    if |f| == 2 then
      match (ParseNat(f[0]), ParseNat(f[1]))
      case (Some(m), Some(s)) => if s < 60 then Some(m * 60 + s) else None
      case _ => None
    else if |f| == 3 then
      match (ParseNat(f[0]), ParseNat(f[1]), ParseNat(f[2]))
      case (Some(h), Some(m), Some(s)) => if m < 60 && s < 60 then Some(h * 3600 + m * 60 + s) else None
      case _ => None
    else None
  }

  /** The number of colon-separated fields of a timestamp. */
  function FieldCount(t: string): nat {
    |Split(t, ':')|
  }

  /** Two rendered fields joined by a colon read back as minutes and seconds. */
  lemma ParseTwoFields(m: nat, s: nat)
    requires s < 60
    ensures FieldCount(Field2(m) + ":" + Field2(s)) == 2
    ensures ParseTimestamp(Field2(m) + ":" + Field2(s)) == Some(m * 60 + s)
  {
    var parts := [Field2(m), Field2(s)];
    Field2Excludes(m, ':');
    Field2Excludes(s, ':');
    assert Join(parts[1..], ':') == Field2(s);
    assert Join(parts, ':') == Field2(m) + ":" + Field2(s);
    SplitJoin(parts, ':');
    ParseField2(m);
    ParseField2(s);
  }

  /** Three rendered fields joined by colons read back as hours, minutes and seconds. */
  lemma ParseThreeFields(h: nat, m: nat, s: nat)
    requires m < 60 && s < 60
    ensures FieldCount(Field2(h) + ":" + Field2(m) + ":" + Field2(s)) == 3
    ensures ParseTimestamp(Field2(h) + ":" + Field2(m) + ":" + Field2(s)) == Some(h * 3600 + m * 60 + s)
  {
    var parts := [Field2(h), Field2(m), Field2(s)];
    Field2Excludes(h, ':');
    Field2Excludes(m, ':');
    Field2Excludes(s, ':');
    assert Join(parts[2..], ':') == Field2(s);
    assert parts[1..][1..] == parts[2..];
    assert Join(parts[1..], ':') == Field2(m) + ":" + Field2(s);
    assert Join(parts, ':') == Field2(h) + ":" + Field2(m) + ":" + Field2(s);
    SplitJoin(parts, ':');
    ParseField2(h);
    ParseField2(m);
    ParseField2(s);
  }
}
