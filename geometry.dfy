/**
 * The well-known-text literals written to the geography columns on upload
 * (SerializeLocalization and SerializeLocalizations, DiversityService.Upload.cs): a POINT
 * for one position, a LINESTRING for an event series' track. Coordinates are formatted by
 * `fmt`, the round-trip "R" format of the en-US culture, which the model leaves abstract.
 */
module Geometry {
  import opened Wrappers
  import opened Text
  import opened Sequences
  import opened Model

  /** string.Replace(char, char) */
  function ReplaceChar(s: string, from: char, to: char): (r: string)
    ensures |r| == |s|
    ensures forall i :: 0 <= i < |s| ==> r[i] == if s[i] == from then to else s[i]
  {
    seq(|s|, i requires 0 <= i < |s| => if s[i] == from then to else s[i])
  }

  /** How a latitude or altitude is written: formatted, with any decimal comma made a point. */
  function DotDecimal(t: string): string {
    ReplaceChar(t, ',', '.')
  }

  /** A position is written only if both coordinates are present and are numbers. */
  predicate HasPosition(latitude: Option<Double>, longitude: Option<Double>) {
    latitude.Some? && longitude.Some? && !IsNaN(latitude.value) && !IsNaN(longitude.value)
  }

  /** The altitude is written only if it is present and is a number. */
  predicate HasAltitude(altitude: Option<Double>) {
    altitude.Some? && !IsNaN(altitude.value)
  }

  /** The coordinate texts of a POINT, longitude first, then latitude, then any altitude. */
  function Coordinates(lon: string, lat: string, alt: Option<string>): seq<string> {
    [lon, lat] + if alt.Some? then [alt.value] else []
  }

  /** The same coordinate texts separated by single spaces. */
  function CoordinatesText(lon: string, lat: string, alt: Option<string>): string {
    lon + " " + lat + if alt.Some? then " " + alt.value else ""
  }

  /** A POINT literal over coordinate texts. */
  function PointText(lon: string, lat: string, alt: Option<string>): string {
    "POINT(" + CoordinatesText(lon, lat, alt) + ")"
  }

  /** The altitude text of a written position, if the altitude is written at all. */
  function WrittenAltitude(altitude: Option<Double>, fmt: Double -> string): (r: Option<string>)
    ensures r.Some? <==> HasAltitude(altitude)
  {
    if HasAltitude(altitude) then Some(DotDecimal(fmt(altitude.value))) else None
  }

  /** The coordinate texts of a written position. */
  function PointCoordinates(latitude: Double, longitude: Double, altitude: Option<Double>, fmt: Double -> string): seq<string> {
    Coordinates(fmt(longitude), DotDecimal(fmt(latitude)), WrittenAltitude(altitude, fmt))
  }

  /** The POINT literal of a position, or "" when there is no position to write. */
  function PointLiteral(latitude: Option<Double>, longitude: Option<Double>, altitude: Option<Double>, fmt: Double -> string): (r: string)
    ensures r == "" <==> !HasPosition(latitude, longitude)
    ensures r != "" ==> |r| >= 7 && r[..6] == "POINT(" && r[|r| - 1] == ')'
  {
    if !HasPosition(latitude, longitude) then ""
    else PointText(fmt(longitude.value), DotDecimal(fmt(latitude.value)), WrittenAltitude(altitude, fmt))
  }

  /** SerializeLocalization: builds the POINT literal piece by piece, as the string builder does. */
  method SerializeLocalization(latitude: Option<Double>, longitude: Option<Double>, altitude: Option<Double>, fmt: Double -> string)
    returns (s: string)
    ensures s == PointLiteral(latitude, longitude, altitude, fmt)
  {
    if latitude.None? || longitude.None? || IsNaN(latitude.value) || IsNaN(longitude.value) {
      return "";
    }
    var longitudeStr := fmt(longitude.value);
    var latStr := fmt(latitude.value);
    latStr := ReplaceChar(latStr, ',', '.');

    var builder := "POINT(";
    builder := builder + longitudeStr;
    builder := builder + " ";
    builder := builder + latStr;
    ghost var coords := longitudeStr + " " + latStr;
    AppendAssociative("POINT(", longitudeStr, " ");
    AppendAssociative("POINT(", longitudeStr + " ", latStr);
    assert builder == "POINT(" + coords;
    if altitude.Some? && !IsNaN(altitude.value) {
      var altStr := fmt(altitude.value);
      altStr := ReplaceChar(altStr, ',', '.');
      builder := builder + " ";
      builder := builder + altStr;
      AppendAssociative("POINT(", coords, " ");
      AppendAssociative("POINT(", coords + " ", altStr);
      AppendAssociative(coords, " ", altStr);
      coords := coords + (" " + altStr);
    } else {
      assert coords + "" == coords;
    }
    assert coords == CoordinatesText(longitudeStr, latStr, WrittenAltitude(altitude, fmt));
    assert builder == "POINT(" + coords;
    builder := builder + ")";
    s := builder;
  }

  /** A coordinate text that cannot be confused with the literal's separators. */
  predicate Atomic(t: string) {
    ' ' !in t && ',' !in t
  }

  /** Reads the coordinate texts back out of a POINT literal. */
  function ParsePoint(s: string): Option<seq<string>> {
    if |s| >= 7 && s[..6] == "POINT(" && s[|s| - 1] == ')' then Some(SplitOn(s[6..|s| - 1], ' ')) else None
  }

  /** Replacing commas by points keeps a coordinate text atomic. */
  lemma DotDecimalAtomic(t: string)
    requires Atomic(t)
    ensures Atomic(DotDecimal(t))
  {
    var r := DotDecimal(t);
    forall i | 0 <= i < |r| ensures r[i] != ' ' && r[i] != ',' {
      assert t[i] != ' ';
    }
  }

  /** Two space-free texts joined by a space split back into the two. */
  lemma SplitTwo(a: string, b: string)
    requires ' ' !in a && ' ' !in b
    ensures SplitOn(a + " " + b, ' ') == [a, b]
  {
    assert a + " " + b == a + [' '] + b;
    SplitOnAround(a, ' ', b);
    SplitOnWithout(a, ' ');
    SplitOnWithout(b, ' ');
  }

  /** Three space-free texts joined by spaces split back into the three. */
  lemma SplitThree(a: string, b: string, c: string)
    requires ' ' !in a && ' ' !in b && ' ' !in c
    ensures SplitOn(a + " " + b + " " + c, ' ') == [a, b, c]
  {
    assert a + " " + b + " " + c == a + [' '] + (b + " " + c);
    SplitOnAround(a, ' ', b + " " + c);
    SplitOnWithout(a, ' ');
    SplitTwo(b, c);
  }

  /** Reading a POINT literal splits what is between its parentheses at the spaces. */
  lemma ParsePointText(body: string)
    ensures ParsePoint("POINT(" + body + ")") == Some(SplitOn(body, ' '))
  {
    var s := "POINT(" + body + ")";
    assert s[..6] == "POINT(" && s[6..|s| - 1] == body && s[|s| - 1] == ')';
  }

  /** A POINT literal over space-free coordinate texts splits back into those texts. */
  lemma PointTextRoundTrip(lon: string, lat: string, alt: Option<string>)
    requires ' ' !in lon && ' ' !in lat && (alt.Some? ==> ' ' !in alt.value)
    ensures ParsePoint(PointText(lon, lat, alt)) == Some(Coordinates(lon, lat, alt))
  {
    ParsePointText(CoordinatesText(lon, lat, alt));
    if alt.Some? {
      assert CoordinatesText(lon, lat, alt) == lon + " " + lat + " " + alt.value;
      SplitThree(lon, lat, alt.value);
      assert Coordinates(lon, lat, alt) == [lon, lat, alt.value];
    } else {
      assert CoordinatesText(lon, lat, alt) == lon + " " + lat;
      SplitTwo(lon, lat);
      assert Coordinates(lon, lat, alt) == [lon, lat];
    }
  }

  /**
   * A written POINT gives back its coordinate texts: longitude, latitude and, exactly when
   * the altitude is present and a number, the altitude.
   */
  lemma PointRoundTrip(latitude: Option<Double>, longitude: Option<Double>, altitude: Option<Double>, fmt: Double -> string)
    requires HasPosition(latitude, longitude)
    requires Atomic(fmt(latitude.value)) && Atomic(fmt(longitude.value))
    requires HasAltitude(altitude) ==> Atomic(fmt(altitude.value))
    ensures ParsePoint(PointLiteral(latitude, longitude, altitude, fmt)) == Some(PointCoordinates(latitude.value, longitude.value, altitude, fmt))
  {
    DotDecimalAtomic(fmt(latitude.value));
    if HasAltitude(altitude) {
      DotDecimalAtomic(fmt(altitude.value));
    }
    PointTextRoundTrip(fmt(longitude.value), DotDecimal(fmt(latitude.value)), WrittenAltitude(altitude, fmt));
  }

  /** The written POINT has a third coordinate exactly when the altitude is present and a number. */
  lemma PointHasAltitudeIff(latitude: Option<Double>, longitude: Option<Double>, altitude: Option<Double>, fmt: Double -> string)
    requires HasPosition(latitude, longitude)
    requires Atomic(fmt(latitude.value)) && Atomic(fmt(longitude.value))
    requires HasAltitude(altitude) ==> Atomic(fmt(altitude.value))
    ensures |ParsePoint(PointLiteral(latitude, longitude, altitude, fmt)).value| == 3 <==> HasAltitude(altitude)
  {
    PointRoundTrip(latitude, longitude, altitude, fmt);
  }

  // ---------------------------------------------------------------- LINESTRING

  /** How one point of a track is written: longitude, a space, latitude; no altitude. */
  function PairText(l: Localization, fmt: Double -> string): string {
    fmt(l.longitude) + " " + fmt(l.latitude)
  }

  function PairTexts(ls: seq<Localization>, fmt: Double -> string): (r: seq<string>)
    ensures |r| == |ls|
    ensures forall i :: 0 <= i < |ls| ==> r[i] == PairText(ls[i], fmt)
  {
    seq(|ls|, i requires 0 <= i < |ls| => PairText(ls[i], fmt))
  }

  /** The distinct localizations of a track, in first-seen order; none for a null track. */
  function UniqueLocalizations(locs: Option<seq<Localization>>): seq<Localization> {
    if locs.Some? then Distinct(locs.value) else []
  }

  /**
   * SerializeLocalizations: the LINESTRING through the distinct localizations, or "" when
   * there is no track or fewer than two distinct points (a degenerate line is not written).
   */
  function SerializeLocalizations(locs: Option<seq<Localization>>, fmt: Double -> string): (r: string)
    ensures r == "" <==> locs.None? || |Distinct(locs.value)| < 2
    ensures r != "" ==> |r| >= 12 && r[..11] == "LINESTRING(" && r[|r| - 1] == ')'
  {
    var uniqueLocs := UniqueLocalizations(locs);
    if |uniqueLocs| > 1 then
      var body := Join(PairTexts(uniqueLocs, fmt), ", ");
      LineStringBody(body);
      "LINESTRING(" + body + ")"
    else ""
  }

  /** Reads the coordinate texts of each point back out of a LINESTRING literal. */
  function ParseLineString(s: string): Option<seq<seq<string>>> {
    if |s| >= 12 && s[..11] == "LINESTRING(" && s[|s| - 1] == ')' then
      var pieces := SplitOn(s[11..|s| - 1], ',');
      if forall i :: 1 <= i < |pieces| ==> |pieces[i]| > 0 && pieces[i][0] == ' ' then
        Some(seq(|pieces|, i requires 0 <= i < |pieces| => if i == 0 then SplitOn(pieces[0], ' ') else SplitOn(pieces[i][1..], ' ')))
      else None
    else None
  }

  /** One written point gives back its longitude and latitude texts. */
  lemma PairRoundTrip(l: Localization, fmt: Double -> string)
    requires Atomic(fmt(l.longitude)) && Atomic(fmt(l.latitude))
    ensures ',' !in PairText(l, fmt)
    ensures SplitOn(PairText(l, fmt), ' ') == [fmt(l.longitude), fmt(l.latitude)]
  {
    assert PairText(l, fmt) == fmt(l.longitude) + [' '] + fmt(l.latitude);
    SplitOnAround(fmt(l.longitude), ' ', fmt(l.latitude));
    SplitOnWithout(fmt(l.longitude), ' ');
    SplitOnWithout(fmt(l.latitude), ' ');
  }

  /** The body of a LINESTRING literal is what lies between its parentheses. */
  lemma LineStringBody(body: string)
    ensures var s := "LINESTRING(" + body + ")";
            |s| >= 12 && s[..11] == "LINESTRING(" && s[|s| - 1] == ')' && s[11..|s| - 1] == body
  {
    var s := "LINESTRING(" + body + ")";
    assert s[..11] == "LINESTRING(";
    assert s[11..|s| - 1] == body;
  }

  /** A LINESTRING literal over comma-free point texts reads back as those texts, each split at its spaces. */
  lemma LineStringPieces(parts: seq<string>)
    requires |parts| >= 1
    requires forall i :: 0 <= i < |parts| ==> ',' !in parts[i]
    ensures var p := ParseLineString("LINESTRING(" + Join(parts, ", ") + ")");
            && p.Some? && |p.value| == |parts|
            && forall i :: 0 <= i < |parts| ==> p.value[i] == SplitOn(parts[i], ' ')
  {
    var body := Join(parts, ", ");
    LineStringBody(body);
    assert "" + body == body;
    SplitOnJoin("", parts);
    var pieces := SplitOn(body, ',');
    assert pieces[0] == parts[0];
    forall i | 1 <= i < |pieces| ensures |pieces[i]| > 0 && pieces[i][0] == ' ' && pieces[i][1..] == parts[i] {
      assert pieces[i] == " " + parts[i];
    }
  }

  /**
   * A written track gives back one longitude/latitude pair per distinct localization, in
   * first-seen order: the literal holds exactly as many points as there are distinct
   * localizations.
   */
  lemma LineStringRoundTrip(locs: seq<Localization>, fmt: Double -> string)
    requires forall l :: l in locs ==> Atomic(fmt(l.longitude)) && Atomic(fmt(l.latitude))
    requires |Distinct(locs)| >= 2
    ensures var u := Distinct(locs);
            var p := ParseLineString(SerializeLocalizations(Some(locs), fmt));
            && p.Some?
            && |p.value| == |u|
            && forall i :: 0 <= i < |u| ==> p.value[i] == [fmt(u[i].longitude), fmt(u[i].latitude)]
  {
    var u := Distinct(locs);
    var parts := PairTexts(u, fmt);
    assert SerializeLocalizations(Some(locs), fmt) == "LINESTRING(" + Join(parts, ", ") + ")";
    forall i | 0 <= i < |u| ensures ',' !in parts[i] && SplitOn(parts[i], ' ') == [fmt(u[i].longitude), fmt(u[i].latitude)] {
      assert u[i] in locs;
      PairRoundTrip(u[i], fmt);
    }
    LineStringPieces(parts);
  }
}
