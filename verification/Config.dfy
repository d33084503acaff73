/**
 Comma-separated settings and the CORS allow list built from one of them.
 */
module Config {
  import opened Text

  /** What a comma-separated setting means. */
  function CSV(value: string): seq<string> {
    Clean(Split(value, ','))
  }

  /** Non-empty, trimmed and comma-free entries. */
  ghost predicate Canonical(entries: seq<string>) {
    Solid(entries) && AllWithout(entries, ',')
  }

  method ParseCSV(value: string) returns (out: seq<string>)
    ensures out == CSV(value)
    ensures Canonical(out)
  {
    var parts := Split(value, ',');
    out := [];
    for i := 0 to |parts|
      invariant out + Clean(parts[i..]) == Clean(parts)
    {
      var part := TrimSpace(parts[i]);
      assert parts[i..][1..] == parts[i + 1..];
      if part != "" {
        out := out + [part];
      }
    }
    CSVCanonical(value);
  }

  lemma CSVCanonical(value: string)
    ensures Canonical(CSV(value))
  {
    SplitWithout(value, ',');
    CleanIsSolid(Split(value, ','));
    CleanWithout(Split(value, ','), ',');
  }

  /** Joining a list and parsing it gives the list back exactly when the list is canonical. */
  lemma CSVRoundTripIff(entries: seq<string>)
    ensures CSV(Join(entries, ',')) == entries <==> Canonical(entries)
  {
    CSVCanonical(Join(entries, ','));
    if Canonical(entries) {
      if entries == [] {
        assert Split("", ',') == [""];
        BlankTrimsAway("");
      } else {
        SplitJoin(entries, ',');
      }
      CleanKeepsSolid(entries);
    }
  }

  /** Parsing is a normal form: writing the result out and parsing again changes nothing. */
  lemma CSVNormalForm(value: string)
    ensures CSV(Join(CSV(value), ',')) == CSV(value)
  {
    CSVCanonical(value);
    CSVRoundTripIff(CSV(value));
  }

  /** A comma in the text separates the two readings completely. */
  lemma CSVAtComma(a: string, b: string)
    ensures CSV(a + "," + b) == CSV(a) + CSV(b)
  {
    SplitAtSeparator(a, b, ',');
    CleanAppend(Split(a, ','), Split(b, ','));
  }

  /** A text without a comma is one entry, trimmed, or none if nothing is left of it. */
  lemma CSVOfOne(value: string)
    requires ',' !in value
    ensures CSV(value) == if TrimSpace(value) == "" then [] else [TrimSpace(value)]
  {
    SplitWhole(value, ',');
    CleanOfOne(value);
  }

  /** A list as people write it: the space after the comma is not part of the entry. */
  lemma CSVOfSpacedList()
    ensures CSV("a, b") == ["a", "b"]
  {
    assert CSV("a") == ["a"] by {
      CSVOfOne("a");
      TrimmedStays("a");
    }
    assert CSV(" b") == ["b"] by {
      CSVOfOne(" b");
      assert " " + "b" + "" == " b";
      TrimSpaceExact(" ", "b", "");
    }
    assert "a, b" == "a" + "," + " b";
    CSVAtComma("a", " b");
  }

  // CORS -------------------------------------------------------------------------------------------

  datatype CORSOutcome = CORSOutcome(headers: map<string, string>, aborted: bool)

  lemma {:induction false} CleanMember(parts: seq<string>, part: string)
    ensures part in Clean(parts) <==> part != "" && exists i :: 0 <= i < |parts| && TrimSpace(parts[i]) == part
  {
    if parts == [] {
    } else {
      CleanMember(parts[1..], part);
      assert forall i :: 0 <= i < |parts| ==> parts[i] == if i == 0 then parts[0] else parts[1..][i - 1];
    }
  }

  /** The set of origins the middleware closes over. */
  method AllowedOrigins(allowOrigins: seq<string>) returns (allowed: set<string>)
    ensures forall origin :: origin in allowed <==> origin in Clean(allowOrigins)
    ensures forall origin ::
      origin in allowed <==> origin != "" && exists i :: 0 <= i < |allowOrigins| && TrimSpace(allowOrigins[i]) == origin
  {
    allowed := {};
    for i := 0 to |allowOrigins|
      invariant forall origin ::
        origin in allowed || origin in Clean(allowOrigins[i..]) <==> origin in Clean(allowOrigins)
    {
      var origin := TrimSpace(allowOrigins[i]);
      assert allowOrigins[i..][1..] == allowOrigins[i + 1..];
      if origin != "" {
        allowed := allowed + {origin};
      }
    }
    forall origin { CleanMember(allowOrigins, origin); }
  }

  /** One request through the middleware: the headers set and whether the chain stops here. */
  method HandleCORS(allowed: set<string>, originHeader: string, httpMethod: string) returns (res: CORSOutcome)
    ensures res.aborted <==> httpMethod == "OPTIONS"
    ensures TrimSpace(originHeader) == "" || TrimSpace(originHeader) !in allowed ==> res.headers == map[]
    ensures TrimSpace(originHeader) != "" && TrimSpace(originHeader) in allowed ==>
      res.headers ==
        map[
          "Access-Control-Allow-Origin" := TrimSpace(originHeader),
          "Vary" := "Origin",
          "Access-Control-Allow-Methods" := "GET,POST,PUT,PATCH,DELETE,OPTIONS",
          "Access-Control-Allow-Headers" := "Origin,Content-Type,Accept,Authorization,X-Request-ID",
          "Access-Control-Allow-Credentials" := "true"
        ]
  {
    var headers := map[];
    var origin := TrimSpace(originHeader);
    if origin != "" && origin in allowed {
      headers := headers["Access-Control-Allow-Origin" := origin];
      headers := headers["Vary" := "Origin"];
      headers := headers["Access-Control-Allow-Methods" := "GET,POST,PUT,PATCH,DELETE,OPTIONS"];
      headers := headers["Access-Control-Allow-Headers" := "Origin,Content-Type,Accept,Authorization,X-Request-ID"];
      headers := headers["Access-Control-Allow-Credentials" := "true"];
    }
    res := CORSOutcome(headers, httpMethod == "OPTIONS");
  }

  /** From the setting's text to the response: an origin is allowed exactly when the text lists it. */
  method CORSFromSetting(setting: string, originHeader: string, httpMethod: string) returns (res: CORSOutcome)
    ensures res.aborted <==> httpMethod == "OPTIONS"
    ensures TrimSpace(originHeader) !in CSV(setting) ==> res.headers == map[]
    ensures TrimSpace(originHeader) in CSV(setting) ==>
      res.headers ==
        map[
          "Access-Control-Allow-Origin" := TrimSpace(originHeader),
          "Vary" := "Origin",
          "Access-Control-Allow-Methods" := "GET,POST,PUT,PATCH,DELETE,OPTIONS",
          "Access-Control-Allow-Headers" := "Origin,Content-Type,Accept,Authorization,X-Request-ID",
          "Access-Control-Allow-Credentials" := "true"
        ]
  {
    var origins := ParseCSV(setting);
    CleanKeepsSolid(origins);
    var allowed := AllowedOrigins(origins);
    res := HandleCORS(allowed, originHeader, httpMethod);
  }

  /** An origin with a comma in it can be configured in no way. */
  lemma CommaOriginNeverListed(setting: string, origin: string)
    requires ',' in TrimSpace(origin)
    ensures TrimSpace(origin) !in CSV(setting)
  {
    CSVCanonical(setting);
  }
}
