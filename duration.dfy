/**
 * The ISO 8601 duration decoder of src/pyjschema/string.py (`_duration`,
 * `_build_duration`), both as written and with its scan corrected.
 */
module IsoDuration {
  import opened Wrappers
  import opened JsonValue
  import opened Library

  /** `date_signs` and `time_signs`: designator letter to `timedelta` keyword. */
  const DateSigns: map<char, string> := map['Y' := "years", 'M' := "months", 'W' := "weeks", 'D' := "days"]
  const TimeSigns: map<char, string> := map['H' := "hours", 'M' := "minutes", 'S' := "seconds"]

  /** Python's `s.split(sep)`: the pieces between occurrences of `sep`; always at least one. */
  function SplitOn(s: string, sep: char): (parts: seq<string>)
    ensures |parts| >= 1
    ensures forall i | 0 <= i < |parts| :: sep !in parts[i]
  {
    if s == [] then [""]
    else
      var rest := SplitOn(s[1..], sep);
      if s[0] == sep then [""] + rest
      else [[s[0]] + rest[0]] + rest[1..]
  }

  /** The pieces joined back with `sep` between them. */
  function Join(parts: seq<string>, sep: char): string
  {
    if |parts| <= 1 then (if parts == [] then "" else parts[0])
    else parts[0] + [sep] + Join(parts[1..], sep)
  }

  /** Splitting loses nothing: joining the pieces gives the string back. */
  lemma {:induction false} SplitJoin(s: string, sep: char)
    ensures Join(SplitOn(s, sep), sep) == s
  {
    if s != [] {
      SplitJoin(s[1..], sep);
      var rest := SplitOn(s[1..], sep);
      if s[0] != sep {
        assert ([[s[0]] + rest[0]] + rest[1..])[1..] == rest[1..];
        assert s == [s[0]] + s[1..];
      }
    }
  }

  /** A string free of `sep` splits into itself alone. */
  lemma {:induction false} SplitPlain(s: string, sep: char)
    requires sep !in s
    ensures SplitOn(s, sep) == [s]
  {
    if s != [] {
      assert sep !in s[1..];
      SplitPlain(s[1..], sep);
      assert s == [s[0]] + s[1..];
    }
  }

  /** Two `sep`-free strings joined by `sep` split back into exactly those two. */
  lemma {:induction false} SplitPair(a: string, b: string, sep: char)
    requires sep !in a && sep !in b
    ensures SplitOn(a + [sep] + b, sep) == [a, b]
  {
    if a == [] {
      assert a + [sep] + b == [sep] + b;
      assert ([sep] + b)[1..] == b;
      SplitPlain(b, sep);
    } else {
      assert (a + [sep] + b)[1..] == a[1..] + [sep] + b;
      assert sep !in a[1..];
      SplitPair(a[1..], b, sep);
      assert a == [a[0]] + a[1..];
    }
  }

  /**
   * The loop of `_build_duration` as written, from index `i` on with `build` filled
   * so far: `last` stays 0, so each unit value is parsed from `s[0:i]`.
   */
  function ScanAsWritten(s: string, signs: map<char, string>, lib: Library, i: nat, build: map<string, real>): Result<map<string, real>, string>
    requires i <= |s|
    decreases |s| - i
  {
    if i == |s| then Success(build)
    else if s[i] in signs then
      match lib.toFloat(s[0..i])
      case None => Failure("could not convert string to float")
      case Some(v) => ScanAsWritten(s, signs, lib, i + 1, build[signs[s[i]] := v])
    else ScanAsWritten(s, signs, lib, i + 1, build)
  }

  /** The same loop with `last` moved past each designator, as evidently intended. */
  function ScanFixed(s: string, signs: map<char, string>, lib: Library, i: nat, last: nat, build: map<string, real>): Result<map<string, real>, string>
    requires last <= i <= |s|
    decreases |s| - i
  {
    if i == |s| then Success(build)
    else if s[i] in signs then
      match lib.toFloat(s[last..i])
      case None => Failure("could not convert string to float")
      case Some(v) => ScanFixed(s, signs, lib, i + 1, i + 1, build[signs[s[i]] := v])
    else ScanFixed(s, signs, lib, i + 1, last, build)
  }

  function Get(build: map<string, real>, unit: string): real
  {
    if unit in build then build[unit] else 0.0
  }

  /**
   * `timedelta(**build)`: `years` and `months` are not keywords `timedelta`
   * accepts (TypeError); the other units add up to a length in seconds.
   */
  function Timedelta(build: map<string, real>): (r: Result<real, string>)
    ensures r.Failure? <==> "years" in build || "months" in build
  {
    if "years" in build || "months" in build then Failure("invalid keyword argument for __new__()")
    else Success(Get(build, "weeks") * 604800.0 + Get(build, "days") * 86400.0 + Get(build, "hours") * 3600.0
                 + Get(build, "minutes") * 60.0 + Get(build, "seconds"))
  }

  /** `_build_duration` as written. */
  method BuildDuration(s: string, signs: map<char, string>, lib: Library) returns (r: Result<real, string>)
    ensures r == Part(ScanAsWritten(s, signs, lib, 0, map[]))
  {
    var build: map<string, real> := map[];
    var last := 0;
    for i := 0 to |s|
      invariant last == 0
      invariant ScanAsWritten(s, signs, lib, 0, map[]) == ScanAsWritten(s, signs, lib, i, build)
    {
      if s[i] in signs {
        var v := lib.toFloat(s[last..i]);
        if v.None? {
          return Failure("could not convert string to float");
        }
        build := build[signs[s[i]] := v.value];
      }
    }
    r := Timedelta(build);
  }

  /** `_build_duration` with `last` advanced past each designator. */
  method BuildDurationFixed(s: string, signs: map<char, string>, lib: Library) returns (r: Result<real, string>)
    ensures r == Part(ScanFixed(s, signs, lib, 0, 0, map[]))
  {
    var build: map<string, real> := map[];
    var last := 0;
    for i := 0 to |s|
      invariant last <= i
      invariant ScanFixed(s, signs, lib, 0, 0, map[]) == ScanFixed(s, signs, lib, i, last, build)
    {
      if s[i] in signs {
        var v := lib.toFloat(s[last..i]);
        if v.None? {
          return Failure("could not convert string to float");
        }
        build := build[signs[s[i]] := v.value];
        last := i + 1;
      }
    }
    r := Timedelta(build);
  }

  /** The length of one part, built by the given scan. */
  function Part(scan: Result<map<string, real>, string>): Result<real, string>
  {
    match scan
    case Success(b) => Timedelta(b)
    case Failure(e) => Failure(e)
  }

  /** `_duration` as written: the date part's length plus the time part's (the piece after the first 'T'). */
  function DurationAsWritten(s: string, lib: Library): Result<Json, string>
  {
    if |s| == 0 || s[0] != 'P' then Failure("not in a correct duration format")
    else
      var parts := SplitOn(s[1..], 'T');
      var date :- Part(ScanAsWritten(parts[0], DateSigns, lib, 0, map[]));
      if |parts| > 1 then
        var time :- Part(ScanAsWritten(parts[1], TimeSigns, lib, 0, map[]));
        Success(Span(date + time))
      else Success(Span(date))
  }

  /** `_duration` over the corrected scan; the `Corrected` format table uses it. */
  function Duration(s: string, lib: Library): Result<Json, string>
  {
    if |s| == 0 || s[0] != 'P' then Failure("not in a correct duration format")
    else DurationOfSplit(SplitOn(s[1..], 'T'), lib)
  }

  function DurationOfSplit(parts: seq<string>, lib: Library): Result<Json, string>
    requires |parts| >= 1
  {
    var date :- Part(ScanFixed(parts[0], DateSigns, lib, 0, 0, map[]));
    if |parts| > 1 then
      var time :- Part(ScanFixed(parts[1], TimeSigns, lib, 0, 0, map[]));
      Success(Span(date + time))
    else Success(Span(date))
  }

  /** Anything not starting with 'P' is rejected, in both versions. */
  lemma DurationNeedsDesignatorP(s: string, lib: Library)
    requires |s| == 0 || s[0] != 'P'
    ensures DurationAsWritten(s, lib).Failure? && Duration(s, lib).Failure?
  {
  }

  // ---------------------------------------------------------------------------
  // The scan as written

  /** As written, the scan succeeds only if EVERY prefix ending just before a designator parses as a float. */
  lemma {:induction false} AsWrittenParsesWholePrefixes(s: string, signs: map<char, string>, lib: Library, i: nat, build: map<string, real>)
    requires i <= |s|
    requires ScanAsWritten(s, signs, lib, i, build).Success?
    ensures forall j | i <= j < |s| && s[j] in signs :: lib.toFloat(s[..j]).Some?
    decreases |s| - i
  {
    if i < |s| {
      if s[i] in signs {
        assert s[0..i] == s[..i];
        AsWrittenParsesWholePrefixes(s, signs, lib, i + 1, build[signs[s[i]] := lib.toFloat(s[..i]).value]);
      } else {
        AsWrittenParsesWholePrefixes(s, signs, lib, i + 1, build);
      }
    }
  }

  /** The units the designators of `s` from index `i` on name. */
  function DesignatedUnits(s: string, signs: map<char, string>, i: nat): set<string>
    requires i <= |s|
  {
    set j | i <= j < |s| && s[j] in signs :: signs[s[j]]
  }

  /** No designator of `s` after index `j` names `unit`. */
  predicate LastFor(s: string, signs: map<char, string>, j: nat, unit: string)
  {
    forall k | j < k < |s| && s[k] in signs :: signs[s[k]] != unit
  }

  /**
   * What the scan as written builds: the units already in `build` and those the
   * remaining designators name; a designated unit holds the float of EVERYTHING
   * before its last designator, and an undesignated one keeps its value.
   */
  lemma {:induction false} AsWrittenUnits(s: string, signs: map<char, string>, lib: Library, i: nat, build: map<string, real>)
    requires i <= |s|
    requires ScanAsWritten(s, signs, lib, i, build).Success?
    ensures var out := ScanAsWritten(s, signs, lib, i, build).value;
      && out.Keys == build.Keys + DesignatedUnits(s, signs, i)
      && (forall j | i <= j < |s| && s[j] in signs && LastFor(s, signs, j, signs[s[j]]) ::
            lib.toFloat(s[..j]).Some? && out[signs[s[j]]] == lib.toFloat(s[..j]).value)
      && (forall u | u in build && u !in DesignatedUnits(s, signs, i) :: out[u] == build[u])
    decreases |s| - i
  {
    if i == |s| {
      assert DesignatedUnits(s, signs, i) == {};
    } else {
      var out := ScanAsWritten(s, signs, lib, i, build).value;
      if s[i] in signs {
        assert s[0..i] == s[..i];
        var u := signs[s[i]];
        var build' := build[u := lib.toFloat(s[..i]).value];
        AsWrittenUnits(s, signs, lib, i + 1, build');
        assert DesignatedUnits(s, signs, i) == {u} + DesignatedUnits(s, signs, i + 1);
        if LastFor(s, signs, i, u) {
          assert u !in DesignatedUnits(s, signs, i + 1);
        }
      } else {
        AsWrittenUnits(s, signs, lib, i + 1, build);
        assert DesignatedUnits(s, signs, i) == DesignatedUnits(s, signs, i + 1);
      }
    }
  }

  // ---------------------------------------------------------------------------
  // The corrected scan

  /** A duration component: a number's text followed by its designator. */
  type Token = (string, char)

  predicate WellFormedTokens(tokens: seq<Token>, signs: map<char, string>, lib: Library)
  {
    forall t | t in tokens ::
      t.1 in signs && (forall c | c in t.0 :: c !in signs) && lib.toFloat(t.0).Some?
  }

  /** The text of a list of components. */
  function Render(tokens: seq<Token>): string
  {
    if tokens == [] then "" else tokens[0].0 + [tokens[0].1] + Render(tokens[1..])
  }

  /** What a correct scan should build: each unit gets its own number, a later designator overriding an earlier one. */
  function Expected(tokens: seq<Token>, signs: map<char, string>, lib: Library, build: map<string, real>): map<string, real>
    requires WellFormedTokens(tokens, signs, lib)
  {
    if tokens == [] then build
    else
      assert tokens[0] in tokens;
      Expected(tokens[1..], signs, lib, build[signs[tokens[0].1] := lib.toFloat(tokens[0].0).value])
  }

  /** Reading characters that are not designators changes nothing but the position. */
  lemma {:induction false} ScanFixedSkips(s: string, signs: map<char, string>, lib: Library, i: nat, last: nat, n: nat, build: map<string, real>)
    requires last <= i && i + n <= |s|
    requires forall k | i <= k < i + n :: s[k] !in signs
    ensures ScanFixed(s, signs, lib, i, last, build) == ScanFixed(s, signs, lib, i + n, last, build)
    decreases n
  {
    if n > 0 {
      ScanFixedSkips(s, signs, lib, i + 1, last, n - 1, build);
    }
  }

  /** One component: its number is read from just its own text. */
  lemma ScanFixedToken(s: string, signs: map<char, string>, lib: Library, i: nat, text: string, c: char, build: map<string, real>)
    requires i + |text| < |s| && s[i..i + |text|] == text && s[i + |text|] == c
    requires c in signs && (forall x | x in text :: x !in signs) && lib.toFloat(text).Some?
    ensures ScanFixed(s, signs, lib, i, i, build)
         == ScanFixed(s, signs, lib, i + |text| + 1, i + |text| + 1, build[signs[c] := lib.toFloat(text).value])
  {
    forall k | i <= k < i + |text| ensures s[k] !in signs {
      assert s[k] == text[k - i];
    }
    ScanFixedSkips(s, signs, lib, i, i, |text|, build);
  }

  /** The corrected scan reads every component of a well-formed text with its own number. */
  lemma {:induction false} ScanFixedTokens(s: string, signs: map<char, string>, lib: Library, i: nat, tokens: seq<Token>, build: map<string, real>)
    requires WellFormedTokens(tokens, signs, lib)
    requires i + |Render(tokens)| <= |s| && s[i..i + |Render(tokens)|] == Render(tokens)
    ensures ScanFixed(s, signs, lib, i, i, build)
         == ScanFixed(s, signs, lib, i + |Render(tokens)|, i + |Render(tokens)|, Expected(tokens, signs, lib, build))
    decreases tokens
  {
    if tokens != [] {
      var text, c := tokens[0].0, tokens[0].1;
      assert tokens[0] in tokens;
      var rest := Render(tokens[1..]);
      assert Render(tokens) == text + [c] + rest;
      SliceOfComponent(s, i, text, c, rest);
      ScanFixedToken(s, signs, lib, i, text, c, build);
      assert forall t | t in tokens[1..] :: t in tokens;
      ScanFixedTokens(s, signs, lib, i + |text| + 1, tokens[1..], build[signs[c] := lib.toFloat(text).value]);
    }
  }

  /** Where `text`, `c`, `rest` lie in `s` when their concatenation starts at `i`. */
  lemma SliceOfComponent(s: string, i: nat, text: string, c: char, rest: string)
    requires i + |text| + 1 + |rest| <= |s| && s[i..i + |text| + 1 + |rest|] == text + [c] + rest
    ensures s[i..i + |text|] == text && s[i + |text|] == c
    ensures s[i + |text| + 1..i + |text| + 1 + |rest|] == rest
  {
    var n := |text|;
    var window := s[i..i + n + 1 + |rest|];
    assert s[i..i + n] == window[..n];
    assert s[i + n] == window[n];
    assert s[i + n + 1..i + n + 1 + |rest|] == window[n + 1..];
  }

  /** The corrected scan of a rendered list of components builds exactly the expected units. */
  lemma BuildFixedTokens(tokens: seq<Token>, signs: map<char, string>, lib: Library)
    requires WellFormedTokens(tokens, signs, lib)
    ensures ScanFixed(Render(tokens), signs, lib, 0, 0, map[]) == Success(Expected(tokens, signs, lib, map[]))
  {
    var s := Render(tokens);
    assert s[0..|s|] == s;
    ScanFixedTokens(s, signs, lib, 0, tokens, map[]);
  }

  lemma {:induction false} RenderAvoids(tokens: seq<Token>, signs: map<char, string>, lib: Library, c: char)
    requires WellFormedTokens(tokens, signs, lib)
    requires c !in signs && forall t | t in tokens :: c !in t.0
    ensures c !in Render(tokens)
  {
    if tokens != [] {
      assert tokens[0] in tokens;
      assert forall t | t in tokens[1..] :: t in tokens;
      RenderAvoids(tokens[1..], signs, lib, c);
    }
  }

  /**
   * The corrected decoder reads 'P', date components, 'T', time components into
   * the sum of both parts' lengths. (`WeeksAndDaysOnly` and `TimeUnitsOnly` say
   * when each part has a length at all, since `timedelta` has no years or months.)
   */
  lemma DurationDecodesComponents(date: seq<Token>, time: seq<Token>, lib: Library, x: real, y: real)
    requires WellFormedTokens(date, DateSigns, lib) && WellFormedTokens(time, TimeSigns, lib)
    requires forall t | t in date :: 'T' !in t.0
    requires forall t | t in time :: 'T' !in t.0
    requires Timedelta(Expected(date, DateSigns, lib, map[])) == Success(x)
    requires Timedelta(Expected(time, TimeSigns, lib, map[])) == Success(y)
    ensures Duration("P" + Render(date) + "T" + Render(time), lib) == Success(Span(x + y))
  {
    RenderAvoids(date, DateSigns, lib, 'T');
    RenderAvoids(time, TimeSigns, lib, 'T');
    PartOfTokens(date, DateSigns, lib);
    PartOfTokens(time, TimeSigns, lib);
    DurationOfParts(Render(date), Render(time), lib, x, y);
  }

  /** Without 'T' the decoder reads date components only, as in "P3D". */
  lemma DurationDateOnly(date: seq<Token>, lib: Library, x: real)
    requires WellFormedTokens(date, DateSigns, lib)
    requires forall t | t in date :: 'T' !in t.0
    requires Timedelta(Expected(date, DateSigns, lib, map[])) == Success(x)
    ensures Duration("P" + Render(date), lib) == Success(Span(x))
  {
    var s := "P" + Render(date);
    RenderAvoids(date, DateSigns, lib, 'T');
    assert s[1..] == Render(date);
    SplitPlain(Render(date), 'T');
    PartOfTokens(date, DateSigns, lib);
  }

  /** Week and day components always make a date part `timedelta` accepts. */
  lemma WeeksAndDaysOnly(date: seq<Token>, lib: Library)
    requires WellFormedTokens(date, DateSigns, lib)
    requires forall t | t in date :: t.1 == 'W' || t.1 == 'D'
    ensures Timedelta(Expected(date, DateSigns, lib, map[])).Success?
  {
    assert forall tok | tok in date :: DateSigns[tok.1] != "years" && DateSigns[tok.1] != "months";
    NoCalendarUnits(date, DateSigns, lib);
  }

  /** Time components always make a time part `timedelta` accepts. */
  lemma TimeUnitsOnly(time: seq<Token>, lib: Library)
    requires WellFormedTokens(time, TimeSigns, lib)
    ensures Timedelta(Expected(time, TimeSigns, lib, map[])).Success?
  {
    assert forall tok | tok in time :: TimeSigns[tok.1] != "years" && TimeSigns[tok.1] != "months";
    NoCalendarUnits(time, TimeSigns, lib);
  }

  lemma PartOfTokens(tokens: seq<Token>, signs: map<char, string>, lib: Library)
    requires WellFormedTokens(tokens, signs, lib)
    ensures Part(ScanFixed(Render(tokens), signs, lib, 0, 0, map[])) == Timedelta(Expected(tokens, signs, lib, map[]))
  {
    BuildFixedTokens(tokens, signs, lib);
  }

  /** Without 'Y' or 'M' date designators the built units are ones `timedelta` accepts. */
  lemma NoCalendarUnits(tokens: seq<Token>, signs: map<char, string>, lib: Library)
    requires WellFormedTokens(tokens, signs, lib)
    requires forall t | t in tokens :: signs[t.1] != "years" && signs[t.1] != "months"
    ensures Timedelta(Expected(tokens, signs, lib, map[])).Success?
  {
    ExpectedKeys(tokens, signs, lib, map[]);
  }

  /** 'P', a date part of length `x`, 'T' and a time part of length `y` decode to `x + y`. */
  lemma DurationOfParts(a: string, b: string, lib: Library, x: real, y: real)
    requires 'T' !in a && 'T' !in b
    requires Part(ScanFixed(a, DateSigns, lib, 0, 0, map[])) == Success(x)
    requires Part(ScanFixed(b, TimeSigns, lib, 0, 0, map[])) == Success(y)
    ensures Duration("P" + a + "T" + b, lib) == Success(Span(x + y))
  {
    var s := "P" + a + "T" + b;
    assert s[1..] == a + ['T'] + b;
    SplitPair(a, b, 'T');
    SplitDuration(s, a, b, lib);
    DurationOfPair(a, b, lib, x, y);
  }

  lemma DurationOfPair(a: string, b: string, lib: Library, x: real, y: real)
    requires Part(ScanFixed(a, DateSigns, lib, 0, 0, map[])) == Success(x)
    requires Part(ScanFixed(b, TimeSigns, lib, 0, 0, map[])) == Success(y)
    ensures DurationOfSplit([a, b], lib) == Success(Span(x + y))
  {
  }

  lemma SplitDuration(s: string, a: string, b: string, lib: Library)
    requires |s| > 0 && s[0] == 'P' && SplitOn(s[1..], 'T') == [a, b]
    ensures Duration(s, lib) == DurationOfSplit([a, b], lib)
  {
  }

  /** The units a correct scan fills are those of the components' designators. */
  lemma {:induction false} ExpectedKeys(tokens: seq<Token>, signs: map<char, string>, lib: Library, build: map<string, real>)
    requires WellFormedTokens(tokens, signs, lib)
    ensures Expected(tokens, signs, lib, build).Keys == build.Keys + set t | t in tokens :: signs[t.1]
  {
    if tokens != [] {
      assert tokens[0] in tokens;
      assert forall t | t in tokens[1..] :: t in tokens;
      ExpectedKeys(tokens[1..], signs, lib, build[signs[tokens[0].1] := lib.toFloat(tokens[0].0).value]);
      assert (set t | t in tokens :: signs[t.1]) == {signs[tokens[0].1]} + set t | t in tokens[1..] :: signs[t.1];
    }
  }

  // ---------------------------------------------------------------------------
  // The discrepancy on one input

  /**
   * "P1W2D" (one week and two days): as written the scan parses `float("1W2")`
   * for the days, which Python rejects; the corrected scan gives 9 days.
   */
  lemma OneWeekTwoDays(lib: Library)
    requires lib.toFloat("1") == Some(1.0) && lib.toFloat("2") == Some(2.0)
    requires lib.toFloat("1W2") == None
    ensures DurationAsWritten("P1W2D", lib).Failure?
    ensures Duration("P1W2D", lib) == Success(Span(9.0 * 86400.0))
  {
    var s := "P1W2D";
    assert s[1..] == "1W2D";
    SplitPlain("1W2D", 'T');
    OneWeekTwoDaysScans(lib);
    OneWeekTwoDaysLength();
    assert Part(ScanFixed("1W2D", DateSigns, lib, 0, 0, map[])) == Success(9.0 * 86400.0);
  }

  lemma OneWeekTwoDaysScans(lib: Library)
    requires lib.toFloat("1") == Some(1.0) && lib.toFloat("2") == Some(2.0)
    requires lib.toFloat("1W2") == None
    ensures ScanAsWritten("1W2D", DateSigns, lib, 0, map[]).Failure?
    ensures ScanFixed("1W2D", DateSigns, lib, 0, 0, map[]) == Success(map["weeks" := 1.0, "days" := 2.0])
  {
    var p := "1W2D";
    assert p[0..1] == "1" && p[0..3] == "1W2" && p[2..3] == "2";
  }

  lemma OneWeekTwoDaysLength()
    ensures Timedelta(map["weeks" := 1.0, "days" := 2.0]) == Success(9.0 * 86400.0)
  {
    var build := map["weeks" := 1.0, "days" := 2.0];
    assert "years" != "weeks" && "years" != "days" && "months" != "weeks" && "months" != "days";
    assert "hours" != "weeks" && "hours" != "days" && "minutes" != "weeks" && "minutes" != "days";
    assert "seconds" != "weeks" && "seconds" != "days";
    assert build.Keys == {"weeks", "days"};
    assert Get(build, "weeks") == 1.0 && Get(build, "days") == 2.0;
    assert Get(build, "hours") == 0.0 && Get(build, "minutes") == 0.0 && Get(build, "seconds") == 0.0;
  }
}
