/**
 The stream key codec of the utilities: printing an identifier, parsing a key, and converting an
 import identifier to its canonical form.
 */
module Identifiers {
  import opened Wrappers
  import opened Messages
  import opened Text

  const NO_LOCATION := "--"

  // ---------------------------------------------------------------- what the codec computes

  /** Why a required field stops printing: it is not set, or it is set to the empty string. */
  function PrintFault(name: string, field: Option<string>): Option<string> {
    match field
    case None => Some(name + " not set")
    case Some(text) => if text == "" then Some(name + " is empty") else None
  }

  /** Why a required field stops conversion: it is not set, or nothing is left of it. */
  function ConvertFault(name: string, field: Option<string>): Option<string> {
    match field
    case None => Some(name + " not set")
    case Some(text) => if Blank(text) then Some(name + " is blank") else None
  }

  /** The first of three faults, in the order network, station, channel. */
  function FirstFault(a: Option<string>, b: Option<string>, c: Option<string>): Option<string> {
    if a.Some? then a else if b.Some? then b else c
  }

  /** The last part of a key.  Blanks are erased only after the empty string was replaced. */
  function PrintedLocation(location: Option<string>): string {
    if location.GetOr("") == "" then NO_LOCATION else Canon(location.value)
  }

  /** The key of an identifier: its four canonical fields with dots between them. */
  function Printed(id: StreamIdentifier): Result<string> {
    var fault := FirstFault(PrintFault("Network", id.network),
                            PrintFault("Station", id.station),
                            PrintFault("Channel", id.channel));
    if fault.Some? then Err(fault.value)
    else Ok(Canon(id.network.value) + "." + Canon(id.station.value) + "."
            + Canon(id.channel.value) + "." + PrintedLocation(id.locationCode))
  }

  function Converted(id: StreamIdentifier): Result<StreamIdentifier> {
    var fault := FirstFault(ConvertFault("Network", id.network),
                            ConvertFault("Station", id.station),
                            ConvertFault("Channel", id.channel));
    var location := Canon(id.locationCode.GetOr(""));
    if fault.Some? then Err(fault.value)
    else Ok(StreamIdentifier(Some(Canon(id.network.value)), Some(Canon(id.station.value)),
                             Some(Canon(id.channel.value)),
                             Some(if location == "" then NO_LOCATION else location)))
  }

  /** The identifier written in a key of three or four parts. */
  function Parsed(key: string): Result<StreamIdentifier> {
    var pieces := Split(key);
    if |pieces| == 3 || |pieces| == 4 then
      Ok(StreamIdentifier(Some(pieces[0]), Some(pieces[1]), Some(pieces[2]),
                          Some(if |pieces| == 4 then pieces[3] else NO_LOCATION)))
    else Err("Unhandled split string size")
  }

  // ---------------------------------------------------------------- the code

  /** Prints the whole identifier first and only then erases the white space and upper-cases it. */
  method ToString(id: StreamIdentifier) returns (r: Result<string>)
    ensures r == Printed(id)
  {
    var result := "";
    if id.network.Some? {
      if id.network.value == "" { return Err("Network is empty"); }
      result := id.network.value;
      result := result + ".";
    } else {
      return Err("Network not set");
    }
    if id.station.Some? {
      if id.station.value == "" { return Err("Station is empty"); }
      result := result + id.station.value;
      result := result + ".";
    } else {
      return Err("Station not set");
    }
    if id.channel.Some? {
      if id.channel.value == "" { return Err("Channel is empty"); }
      result := result + id.channel.value;
      result := result + ".";
    } else {
      return Err("Channel not set");
    }
    ghost var last := if id.locationCode.GetOr("") == "" then NO_LOCATION else id.locationCode.value;
    if id.locationCode.Some? {
      if id.locationCode.value != "" {
        result := result + id.locationCode.value;
      } else {
        result := result + "--";
      }
    } else {
      result := result + "--";
    }
    CanonOfJoined(id.network.value, id.station.value, id.channel.value, last);
    result := EraseSpaces(result);
    result := TransformToUpper(result);
    return Ok(result);
  }

  /** The edit that conversion makes to each of its three required fields. */
  method ConvertField(name: string, field: Option<string>) returns (r: Result<string>)
    ensures r == match ConvertFault(name, field)
                 case Some(fault) => Err(fault)
                 case None => Ok(Canon(field.value))
  {
    if field.Some? {
      NothingLeftIffBlank(field.value);
      var work := EraseSpaces(field.value);
      if work == "" { return Err(name + " is blank"); }
      work := TransformToUpper(work);
      return Ok(work);
    } else {
      return Err(name + " not set");
    }
  }

  /** Canonicalises field by field. */
  method Convert(id: StreamIdentifier) returns (r: Result<StreamIdentifier>)
    ensures r == Converted(id)
  {
    var result := EMPTY_IDENTIFIER;
    var network := ConvertField("Network", id.network);
    if network.Err? { return Err(network.message); }
    result := result.(network := Some(network.value));

    var station := ConvertField("Station", id.station);
    if station.Err? { return Err(station.message); }
    result := result.(station := Some(station.value));

    var channel := ConvertField("Channel", id.channel);
    if channel.Err? { return Err(channel.message); }
    result := result.(channel := Some(channel.value));

    if id.locationCode.Some? {
      var work := EraseSpaces(id.locationCode.value);
      if work != "" {
        work := TransformToUpper(work);
        result := result.(locationCode := Some(work));
      } else {
        result := result.(locationCode := Some("--"));
      }
    } else {
      result := result.(locationCode := Some("--"));
    }
    return Ok(result);
  }

  method FromString(key: string) returns (r: Result<StreamIdentifier>)
    ensures r == Parsed(key)
  {
    var result := EMPTY_IDENTIFIER;
    var splitString := Split(key);
    if |splitString| == 3 || |splitString| == 4 {
      result := result.(network := Some(splitString[0]));
      result := result.(station := Some(splitString[1]));
      result := result.(channel := Some(splitString[2]));
      if |splitString| == 4 {
        result := result.(locationCode := Some(splitString[3]));
      } else {
        result := result.(locationCode := Some("--"));
      }
    } else {
      return Err("Unhandled split string size");
    }
    return Ok(result);
  }

  lemma CanonOfJoined(a: string, b: string, c: string, d: string)
    ensures Canon(a + "." + b + "." + c + "." + d)
            == Canon(a) + "." + Canon(b) + "." + Canon(c) + "." + Canon(d)
    ensures Canon(NO_LOCATION) == NO_LOCATION
  {
    CanonOfDot();
    CanonAppends(a + "." + b + "." + c + ".", d);
    CanonAppends(a + "." + b + "." + c, ".");
    CanonAppends(a + "." + b + ".", c);
    CanonAppends(a + "." + b, ".");
    CanonAppends(a + ".", b);
    CanonAppends(a, ".");
  }

  lemma CanonOfDot()
    ensures Canon(".") == "." && Canon(NO_LOCATION) == NO_LOCATION
  {
  }

  // ---------------------------------------------------------------- when keys separate streams

  predicate Named(field: Option<string>) {
    field.Some? && !Blank(field.value)
  }

  predicate NoDots(id: StreamIdentifier) {
    && DotFree(id.network.GetOr(""))
    && DotFree(id.station.GetOr(""))
    && DotFree(id.channel.GetOr(""))
    && DotFree(id.locationCode.GetOr(""))
  }

  /** The location is unset, empty, or has something besides white space. */
  predicate LocationKept(location: Option<string>) {
    location.GetOr("") == "" || !Blank(location.value)
  }

  /** The identifiers the cache handles without loss. */
  predicate Clean(id: StreamIdentifier) {
    && Named(id.network) && Named(id.station) && Named(id.channel)
    && NoDots(id)
    && LocationKept(id.locationCode)
  }

  /** Parsing the printed key gives the converted identifier. */
  predicate RoundTrips(id: StreamIdentifier) {
    && Printed(id).Ok?
    && Converted(id).Ok?
    && Parsed(Printed(id).value) == Converted(id)
  }

  /** What one required field becomes in the key. */
  lemma FieldFacts(field: Option<string>)
    requires field.Some?
    ensures Canon(field.value) == "" <==> Blank(field.value)
    ensures DotFree(Canon(field.value)) <==> DotFree(field.value)
    ensures Canon(Canon(field.value)) == Canon(field.value)
    ensures field.value == "" ==> Blank(field.value)
  {
    CanonFacts(field.value);
  }

  lemma LocationFacts(location: Option<string>)
    ensures DotFree(PrintedLocation(location)) <==> DotFree(location.GetOr(""))
    ensures PrintedLocation(location) == "" <==> !LocationKept(location)
    ensures Canon(PrintedLocation(location)) == PrintedLocation(location)
    ensures LocationKept(location) ==>
              PrintedLocation(location)
              == if Canon(location.GetOr("")) == "" then NO_LOCATION else Canon(location.GetOr(""))
  {
    CanonFacts(location.GetOr(""));
    CanonOfDot();
  }

  /** A printed key parses exactly when no field holds a dot, and then it parses to the canonical fields. */
  lemma PrintedKeyParses(id: StreamIdentifier)
    requires Printed(id).Ok?
    ensures Parsed(Printed(id).value).Ok? <==> NoDots(id)
    ensures NoDots(id) ==>
              Parsed(Printed(id).value)
              == Ok(StreamIdentifier(Some(Canon(id.network.value)), Some(Canon(id.station.value)),
                                     Some(Canon(id.channel.value)), Some(PrintedLocation(id.locationCode))))
  {
    FieldFacts(id.network);
    FieldFacts(id.station);
    FieldFacts(id.channel);
    LocationFacts(id.locationCode);
    SplitOfJoined(Canon(id.network.value), Canon(id.station.value),
                  Canon(id.channel.value), PrintedLocation(id.locationCode));
  }

  /** The round trip holds exactly for clean identifiers. */
  lemma RoundTripIffClean(id: StreamIdentifier)
    ensures RoundTrips(id) <==> Clean(id)
  {
    if Printed(id).Ok? {
      PrintedKeyParses(id);
      FieldFacts(id.network);
      FieldFacts(id.station);
      FieldFacts(id.channel);
      LocationFacts(id.locationCode);
    } else if Clean(id) {
      assert false;
    }
  }

  /** The key up to its last part. */
  function Front(id: StreamIdentifier): string
    requires Printed(id).Ok?
  {
    Canon(id.network.value) + "." + Canon(id.station.value) + "." + Canon(id.channel.value) + "."
  }

  /** The key of a converted identifier differs from the original key in the last part only. */
  lemma KeyOfConverted(id: StreamIdentifier)
    requires Converted(id).Ok?
    ensures Printed(id) == Ok(Front(id) + PrintedLocation(id.locationCode))
    ensures Printed(Converted(id).value) == Ok(Front(id) + Converted(id).value.locationCode.value)
  {
    FieldFacts(id.network);
    FieldFacts(id.station);
    FieldFacts(id.channel);
    CanonFacts(id.locationCode.GetOr(""));
    CanonOfDot();
  }

  lemma SameFront(front: string, a: string, b: string)
    ensures front + a == front + b <==> a == b
  {
    assert (front + a)[|front|..] == a && (front + b)[|front|..] == b;
  }

  /** Converting first does not change the key; for a convertible identifier that is exactly the
      condition on its location. */
  lemma ConversionKeepsKey(id: StreamIdentifier)
    requires Converted(id).Ok?
    ensures Printed(Converted(id).value) == Printed(id) <==> LocationKept(id.locationCode)
  {
    KeyOfConverted(id);
    LocationFacts(id.locationCode);
    CanonFacts(id.locationCode.GetOr(""));
    SameFront(Front(id), PrintedLocation(id.locationCode), Converted(id).value.locationCode.value);
  }

  /** Two clean identifiers share a key exactly when they have the same canonical form. */
  lemma KeysSeparateStreams(a: StreamIdentifier, b: StreamIdentifier)
    requires Clean(a) && Clean(b)
    ensures Printed(a) == Printed(b) <==> Converted(a) == Converted(b)
  {
    RoundTripIffClean(a);
    RoundTripIffClean(b);
    if Converted(a) == Converted(b) {
      ConversionKeepsKey(a);
      ConversionKeepsKey(b);
    }
  }

  /** What a key parses to prints back to that key exactly when the key came from a clean identifier. */
  lemma ParsedPrintsBackIffClean(id: StreamIdentifier)
    requires Printed(id).Ok?
    ensures (Parsed(Printed(id).value).Ok? && Printed(Parsed(Printed(id).value).value) == Printed(id))
            <==> Clean(id)
  {
    PrintedKeyParses(id);
    FieldFacts(id.network);
    FieldFacts(id.station);
    FieldFacts(id.channel);
    LocationFacts(id.locationCode);
    CanonOfDot();
    if NoDots(id) && !LocationKept(id.locationCode) {
      var front := Canon(id.network.value) + "." + Canon(id.station.value) + "." + Canon(id.channel.value) + ".";
      assert Printed(id).value == front;
      var back := Parsed(Printed(id).value).value;
      if Printed(back).Ok? {
        assert Printed(back).value == front + NO_LOCATION;
      }
    }
  }

  // ---------------------------------------------------------------- what printing and conversion mean

  /** The location a key ends with before it is edited, when blanks count as nothing. */
  function NamedLocation(location: Option<string>): string {
    if Blank(location.GetOr("")) then "--" else location.value
  }

  /** Identifiers that differ only in case and white space; a location without a name is two dashes. */
  predicate AlikeIdentifiers(a: StreamIdentifier, b: StreamIdentifier) {
    && Alike(a.network.GetOr(""), b.network.GetOr(""))
    && Alike(a.station.GetOr(""), b.station.GetOr(""))
    && Alike(a.channel.GetOr(""), b.channel.GetOr(""))
    && Alike(NamedLocation(a.locationCode), NamedLocation(b.locationCode))
  }

  lemma ConvertedLocationIs(id: StreamIdentifier)
    requires Converted(id).Ok?
    ensures Converted(id).value.locationCode == Some(Canon(NamedLocation(id.locationCode)))
  {
    CanonFacts(id.locationCode.GetOr(""));
    CanonOfDot();
  }

  /** Which identifiers print and which convert; and nothing that prints or converts keeps a lower-case
      letter or white space. */
  lemma KeysAreTidy(id: StreamIdentifier)
    ensures Printed(id).Ok? <==>
              id.network.GetOr("") != "" && id.station.GetOr("") != "" && id.channel.GetOr("") != ""
    ensures Converted(id).Ok? <==> Named(id.network) && Named(id.station) && Named(id.channel)
    ensures Printed(id).Ok? ==> Tidy(Printed(id).value)
    ensures Converted(id).Ok? ==>
              var c := Converted(id).value;
              && c.network.Some? && c.station.Some? && c.channel.Some? && c.locationCode.Some?
              && Tidy(c.network.value) && Tidy(c.station.value) && Tidy(c.channel.value) && Tidy(c.locationCode.value)
  {
    if Printed(id).Ok? {
      var last := if id.locationCode.GetOr("") == "" then NO_LOCATION else id.locationCode.value;
      CanonOfJoined(id.network.value, id.station.value, id.channel.value, last);
      CanonIsTidy(id.network.value + "." + id.station.value + "." + id.channel.value + "." + last);
    }
    if Converted(id).Ok? {
      ConvertedLocationIs(id);
      CanonIsTidy(id.network.value);
      CanonIsTidy(id.station.value);
      CanonIsTidy(id.channel.value);
      CanonIsTidy(NamedLocation(id.locationCode));
    }
  }

  /** The first of network, station and channel that is missing is reported, whatever the later ones are. */
  lemma FirstMissingIsReported(id: StreamIdentifier)
    ensures var n, s, c := id.network, id.station, id.channel;
            && (n.None? ==> Printed(id) == Err("Network not set"))
            && (n == Some("") ==> Printed(id) == Err("Network is empty"))
            && (n.GetOr("") != "" && s.None? ==> Printed(id) == Err("Station not set"))
            && (n.GetOr("") != "" && s == Some("") ==> Printed(id) == Err("Station is empty"))
            && (n.GetOr("") != "" && s.GetOr("") != "" && c.None? ==> Printed(id) == Err("Channel not set"))
            && (n.GetOr("") != "" && s.GetOr("") != "" && c == Some("") ==> Printed(id) == Err("Channel is empty"))
  {
  }

  lemma FirstBlankIsReported(id: StreamIdentifier)
    ensures var n, s, c := id.network, id.station, id.channel;
            && (n.None? ==> Converted(id) == Err("Network not set"))
            && (n.Some? && Blank(n.value) ==> Converted(id) == Err("Network is blank"))
            && (Named(n) && s.None? ==> Converted(id) == Err("Station not set"))
            && (Named(n) && s.Some? && Blank(s.value) ==> Converted(id) == Err("Station is blank"))
            && (Named(n) && Named(s) && c.None? ==> Converted(id) == Err("Channel not set"))
            && (Named(n) && Named(s) && c.Some? && Blank(c.value) ==> Converted(id) == Err("Channel is blank"))
  {
  }

  /** Two identifiers convert to the same one exactly when they differ in case and white space only. */
  lemma SameConvertedIffAlike(a: StreamIdentifier, b: StreamIdentifier)
    requires Converted(a).Ok? && Converted(b).Ok?
    ensures Converted(a) == Converted(b) <==> AlikeIdentifiers(a, b)
  {
    ConvertedLocationIs(a);
    ConvertedLocationIs(b);
    SameCanonIffAlike(a.network.value, b.network.value);
    SameCanonIffAlike(a.station.value, b.station.value);
    SameCanonIffAlike(a.channel.value, b.channel.value);
    SameCanonIffAlike(NamedLocation(a.locationCode), NamedLocation(b.locationCode));
  }

  /** Two clean identifiers share a key exactly when they differ in case and white space only. */
  lemma SameKeyIffAlike(a: StreamIdentifier, b: StreamIdentifier)
    requires Clean(a) && Clean(b)
    ensures Printed(a) == Printed(b) <==> AlikeIdentifiers(a, b)
  {
    KeysAreTidy(a);
    KeysAreTidy(b);
    KeysSeparateStreams(a, b);
    SameConvertedIffAlike(a, b);
  }

  /** Fields with dots too: identifiers alike field by field have the same key. */
  lemma AlikeShareKey(a: StreamIdentifier, b: StreamIdentifier)
    requires Printed(a).Ok? && Printed(b).Ok?
    requires LocationKept(a.locationCode) && LocationKept(b.locationCode) && AlikeIdentifiers(a, b)
    ensures Printed(a) == Printed(b)
  {
    SameCanonIffAlike(a.network.value, b.network.value);
    SameCanonIffAlike(a.station.value, b.station.value);
    SameCanonIffAlike(a.channel.value, b.channel.value);
    SameCanonIffAlike(NamedLocation(a.locationCode), NamedLocation(b.locationCode));
    CanonOfDot();
    CanonFacts(a.locationCode.GetOr(""));
    CanonFacts(b.locationCode.GetOr(""));
  }

  /** Tidy fields are printed and converted as they are. */
  lemma TidyIsUnchanged(network: string, station: string, channel: string, location: string)
    requires network != "" && station != "" && channel != ""
    requires Tidy(network) && Tidy(station) && Tidy(channel) && Tidy(location)
    ensures var last := if location == "" then "--" else location;
            && Printed(Filled(network, station, channel, location))
               == Ok(network + "." + station + "." + channel + "." + last)
            && Converted(Filled(network, station, channel, location)) == Ok(Filled(network, station, channel, last))
  {
    TidyIsKept(network);
    TidyIsKept(station);
    TidyIsKept(channel);
    TidyIsKept(location);
    CanonFacts(network);
    CanonFacts(station);
    CanonFacts(channel);
  }

  /** What a key parses to: the four fields without dots of which it is made, or the three with two dashes
      as the location; and nothing else parses to them. */
  lemma ParsedIff(key: string, a: string, b: string, c: string, d: string)
    ensures Parsed(key) == Ok(Filled(a, b, c, d))
            <==> && DotFree(a) && DotFree(b) && DotFree(c) && DotFree(d)
                 && (|| key == a + "." + b + "." + c + "." + d
                     || (d == "--" && key == a + "." + b + "." + c))
  {
    var pieces := Split(key);
    JoinedIsWhole(key);
    if |pieces| == 3 {
      assert pieces == [pieces[0], pieces[1], pieces[2]];
      JoinedOfThree(pieces[0], pieces[1], pieces[2]);
    } else if |pieces| == 4 {
      assert pieces == [pieces[0], pieces[1], pieces[2], pieces[3]];
      JoinedOfFour(pieces[0], pieces[1], pieces[2], pieces[3]);
    }
    if DotFree(a) && DotFree(b) && DotFree(c) && DotFree(d) {
      SplitOfJoined(a, b, c, d);
      SplitOfThree(a, b, c);
    }
    if Parsed(key) == Ok(Filled(a, b, c, d)) {
      PiecesAreDotFree(key, 0);
      PiecesAreDotFree(key, 1);
      PiecesAreDotFree(key, 2);
      if |pieces| == 4 { PiecesAreDotFree(key, 3); }
      assert DotFree(NO_LOCATION);
    }
  }

  function Filled(network: string, station: string, channel: string, location: string): StreamIdentifier {
    StreamIdentifier(Some(network), Some(station), Some(channel), Some(location))
  }

  lemma CanonOfPair(a: string, b: string)
    ensures Canon(a + "." + b) == Canon(a) + "." + Canon(b)
  {
    CanonOfDot();
    CanonAppends(a + ".", b);
    CanonAppends(a, ".");
  }

  lemma FiveParts(a: string, b: string, c: string, d: string, e: string)
    ensures (a + "." + b) + "." + c + "." + d + "." + e == a + "." + (b + "." + c) + "." + d + "." + e
  {
  }

  /** The same key for two fillings of the fields that differ in where a dot stands. */
  lemma DotMovesBetweenFields(a: string, b: string, c: string, channel: string, location: string)
    requires a != "" && b != "" && c != "" && channel != ""
    ensures Printed(Filled(a + "." + b, c, channel, location)) == Printed(Filled(a, b + "." + c, channel, location))
    ensures Printed(Filled(a, b + "." + c, channel, location)).Ok?
  {
    CanonOfPair(a, b);
    CanonOfPair(b, c);
    FiveParts(Canon(a), Canon(b), Canon(c), Canon(channel), PrintedLocation(Some(location)));
  }

  lemma JoinedIsNamed(a: string, b: string)
    requires !Blank(a)
    ensures !Blank(a + "." + b) && Canon(a + "." + b) != Canon(a) && !DotFree(a + "." + b)
  {
    var c :| c in a && !IsSpace(c);
    assert c in a + "." + b;
    assert (a + "." + b)[|a|] == '.';
    CanonOfPair(a, b);
    assert |Canon(a + "." + b)| > |Canon(a)|;
  }

  /** Without the condition on dots two streams with different canonical forms meet in one key, for
      every choice of the names around the dot, and that key does not parse. */
  lemma DottedKeysClash(a: string, b: string, c: string, channel: string, location: string)
    requires !Blank(a) && !Blank(b) && !Blank(c) && !Blank(channel)
    ensures var one, two := Filled(a + "." + b, c, channel, location), Filled(a, b + "." + c, channel, location);
            && Printed(one) == Printed(two)
            && Printed(one).Ok? && Parsed(Printed(one).value).Err?
            && Converted(one).Ok? && Converted(two).Ok? && Converted(one) != Converted(two)
  {
    DotMovesBetweenFields(a, b, c, channel, location);
    JoinedIsNamed(a, b);
    JoinedIsNamed(b, c);
    PrintedKeyParses(Filled(a + "." + b, c, channel, location));
  }
}
