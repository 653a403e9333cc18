/** The scenarios of `LineTest`: each starts from the line 신분당선 with one section 강남역 → 광교역
    over 10 and states what the line shows afterwards. */
module LineTests {
  import opened Errors
  import opened Distances
  import opened Stations
  import opened Sections
  import opened SectionProperties
  import opened Lines

  const Sinsa := "신사역"
  const Gangnam := "강남역"
  const Yangjae := "양재역"
  const Gwanggyo := "광교역"
  const Suwon := "수원역"

  /** The section list and the stations of 신분당선 as it is created. */
  const One := [Section(Gangnam, Gwanggyo, 10)]
  const Two := [Gangnam, Gwanggyo]

  /** The list after 신사역 → 강남역 over 5 is added. */
  const Prepended := [Section(Gangnam, Gwanggyo, 10), Section(Sinsa, Gangnam, 5)]

  /** The five station names differ from each other (they already differ in their first letter). */
  lemma NamesDiffer()
    ensures Sinsa != Gangnam && Sinsa != Yangjae && Sinsa != Gwanggyo && Sinsa != Suwon
    ensures Gangnam != Yangjae && Gangnam != Gwanggyo && Gangnam != Suwon
    ensures Yangjae != Gwanggyo && Yangjae != Suwon && Gwanggyo != Suwon
  {
    assert Sinsa[0] == '신' && Gangnam[0] == '강' && Yangjae[0] == '양' && Gwanggyo[0] == '광' && Suwon[0] == '수';
  }

  lemma AddBetweenFacts()
    ensures AddSection(One, Gangnam, Yangjae, 3) == Ok([Section(Yangjae, Gwanggyo, 7), Section(Gangnam, Yangjae, 3)])
    ensures AddedPath(Two, Gangnam, Yangjae) == [Gangnam, Yangjae, Gwanggyo]
  {
    NamesDiffer();
    assert IndexOfUp(One, Gangnam) == 0;
    assert IndexOfUp(One, Yangjae) == -1 && IndexOfDown(One, Yangjae) == -1;
    assert ValidateLargerThan(10, 3) == Pass && Minus(10, 3) == Ok(7);
    assert One[0 := Section(Yangjae, Gwanggyo, 7)] == [Section(Yangjae, Gwanggyo, 7)];
    assert IndexOf(Two, Gangnam) == 0;
    var r := AddSection(One, Gangnam, Yangjae, 3);
    assert Registered(One, Gangnam);
    assert !Registered(One, Yangjae);
    assert r.Ok?;
    assert r.value == [Section(Yangjae, Gwanggyo, 7), Section(Gangnam, Yangjae, 3)];
  }

  lemma AddUpTerminusFacts()
    ensures AddSection(One, Sinsa, Gangnam, 5) == Ok(Prepended)
    ensures AddedPath(Two, Sinsa, Gangnam) == [Sinsa, Gangnam, Gwanggyo]
  {
    NamesDiffer();
    assert IndexOfUp(One, Sinsa) == -1 && IndexOfDown(One, Sinsa) == -1;
    assert IndexOfDown(One, Gangnam) == -1 && IndexOfUp(One, Gangnam) == 0;
    assert Sinsa !in Two && IndexOf(Two, Gangnam) == 0;
    var r := AddSection(One, Sinsa, Gangnam, 5);
    assert Registered(One, Gangnam) && !Registered(One, Sinsa);
    assert r.Ok?;
    assert r.value == One + [Section(Sinsa, Gangnam, 5)];
    assert One + [Section(Sinsa, Gangnam, 5)] == Prepended;
  }

  lemma AddDownTerminusFacts(d: int)
    requires 0 < d
    ensures AddSection(One, Gwanggyo, Suwon, d) == Ok(One + [Section(Gwanggyo, Suwon, d as Distance)])
    ensures AddedPath(Two, Gwanggyo, Suwon) == [Gangnam, Gwanggyo, Suwon]
  {
    NamesDiffer();
    assert IndexOfUp(One, Gwanggyo) == -1 && IndexOfDown(One, Gwanggyo) == 0;
    assert IndexOfUp(One, Suwon) == -1 && IndexOfDown(One, Suwon) == -1;
    assert IndexOf(Two, Gwanggyo) == 1;
  }

  lemma RemoveInteriorFacts()
    ensures RemoveSection(Prepended, Gangnam) == Ok([Section(Sinsa, Gwanggyo, 15)])
    ensures RemovedPath([Sinsa, Gangnam, Gwanggyo], Gangnam) == [Sinsa, Gwanggyo]
  {
    NamesDiffer();
    assert IndexOfUp(Prepended, Gangnam) == 0 && IndexOfDown(Prepended, Gangnam) == 1;
    assert WithoutBoth(Prepended, 0, 1) == [];
    assert Plus(5, 10) == Ok(15);
    assert IndexOf([Sinsa, Gangnam, Gwanggyo], Gangnam) == 1;
    var r := RemoveSection(Prepended, Gangnam);
    assert Registered(Prepended, Gangnam);
    assert r.Ok?;
    assert r.value == WithoutBoth(Prepended, 0, 1) + [Section(Sinsa, Gwanggyo, 15)];
    assert r.value == [Section(Sinsa, Gwanggyo, 15)];
  }

  lemma RemoveUpTerminusFacts()
    ensures RemoveSection(Prepended, Sinsa) == Ok(One)
    ensures RemovedPath([Sinsa, Gangnam, Gwanggyo], Sinsa) == Two
  {
    NamesDiffer();
    assert IndexOfUp(Prepended, Sinsa) == 1 && IndexOfDown(Prepended, Sinsa) == -1;
    assert Prepended[..1] + Prepended[2..] == One;
    assert IndexOf([Sinsa, Gangnam, Gwanggyo], Sinsa) == 0;
  }

  lemma RemoveDownTerminusFacts(d: Distance)
    ensures RemoveSection(One + [Section(Gwanggyo, Suwon, d)], Suwon) == Ok(One)
    ensures RemovedPath([Gangnam, Gwanggyo, Suwon], Suwon) == Two
  {
    NamesDiffer();
    var appended := One + [Section(Gwanggyo, Suwon, d)];
    assert IndexOfUp(appended, Suwon) == -1 && IndexOfDown(appended, Suwon) == 1;
    assert appended[..1] + appended[2..] == One;
    assert IndexOf([Gangnam, Gwanggyo, Suwon], Suwon) == 2;
  }

  lemma RefusalFacts()
    ensures AddSection(One, Gangnam, Yangjae, 10) == Err(CannotUpdateSection(DistanceNotShorter))
    ensures AddSection(One, Gangnam, Gwanggyo, 5) == Err(CannotUpdateSection(BothRegistered))
    ensures AddSection(One, Sinsa, Suwon, 5) == Err(CannotUpdateSection(NeitherRegistered))
    ensures RemoveSection(One, Gangnam) == Err(CannotDelete(OnlyOneSection))
    ensures RemoveSection(One, Sinsa) == Err(CannotDelete(StationNotOnLine))
  {
    NamesDiffer();
    assert Registered(One, Gangnam) && Registered(One, Gwanggyo);
    assert !Registered(One, Sinsa) && !Registered(One, Suwon) && !Registered(One, Yangjae);
    assert IndexOfUp(One, Gangnam) == 0;
  }

  method NewSinbundang() returns (line: Line)
    ensures fresh(line) && line.Valid()
    ensures line.sections == One && line.Path == Two
  {
    line := new Line("신분당선", "bg-red-600", Gangnam, Gwanggyo, 10);
  }

  /** A new line lists its two stations from up to down. */
  method OrderStations() returns (stations: seq<string>)
    ensures stations == [Gangnam, Gwanggyo]
  {
    var line := NewSinbundang();
    stations := line.GetStations();
  }

  /** A station added after 강남역 splits the first section, which keeps index 0 and 10 - 3. */
  method AddBetween() returns (r: Outcome, stations: seq<string>, first: int)
    ensures r == Pass && stations == [Gangnam, Yangjae, Gwanggyo] && first == 7
  {
    var line := NewSinbundang();
    AddBetweenFacts();
    r := line.AddLineSection(Gangnam, Yangjae, 3);
    stations := line.GetStations();
    first := line.sections[0].distance as int;
  }

  /** A new upstream terminus is appended to the section list. */
  method AddUpTerminus() returns (r: Outcome, stations: seq<string>, second: int)
    ensures r == Pass && stations == [Sinsa, Gangnam, Gwanggyo] && second == 5
  {
    var line := NewSinbundang();
    AddUpTerminusFacts();
    r := line.AddLineSection(Sinsa, Gangnam, 5);
    stations := line.GetStations();
    second := line.sections[1].distance as int;
  }

  /** A new downstream terminus is appended to the section list. */
  method AddDownTerminus() returns (r: Outcome, stations: seq<string>, second: int)
    ensures r == Pass && stations == [Gangnam, Gwanggyo, Suwon] && second == 8
  {
    var line := NewSinbundang();
    AddDownTerminusFacts(8);
    r := line.AddLineSection(Gwanggyo, Suwon, 8);
    stations := line.GetStations();
    second := line.sections[1].distance as int;
  }

  /** A new leg as long as the one it would split is refused. */
  method AddTooLong() returns (r: Outcome)
    ensures r == Fail(CannotUpdateSection(DistanceNotShorter))
  {
    var line := NewSinbundang();
    RefusalFacts();
    r := line.AddLineSection(Gangnam, Yangjae, 10);
  }

  /** A section between two stations already on the line is refused. */
  method AddBothRegistered() returns (r: Outcome)
    ensures r == Fail(CannotUpdateSection(BothRegistered))
  {
    var line := NewSinbundang();
    RefusalFacts();
    r := line.AddLineSection(Gangnam, Gwanggyo, 5);
  }

  /** A section between two stations not on the line is refused. */
  method AddNeitherRegistered() returns (r: Outcome)
    ensures r == Fail(CannotUpdateSection(NeitherRegistered))
  {
    var line := NewSinbundang();
    RefusalFacts();
    r := line.AddLineSection(Sinsa, Suwon, 5);
  }

  /** Removing the interior station 강남역 merges 5 and 10 into one section of 15. */
  method RemoveInterior() returns (r: Outcome, stations: seq<string>, first: int)
    ensures r == Pass && stations == [Sinsa, Gwanggyo] && first == 15
  {
    var line := NewSinbundang();
    AddUpTerminusFacts();
    var added := line.AddLineSection(Sinsa, Gangnam, 5);
    RemoveInteriorFacts();
    r := line.RemoveLineSection(Gangnam);
    stations := line.GetStations();
    first := line.sections[0].distance as int;
  }

  /** Removing the upstream terminus drops its section only. */
  method RemoveUpTerminus() returns (r: Outcome, stations: seq<string>, first: int)
    ensures r == Pass && stations == [Gangnam, Gwanggyo] && first == 10
  {
    var line := NewSinbundang();
    AddUpTerminusFacts();
    var added := line.AddLineSection(Sinsa, Gangnam, 5);
    RemoveUpTerminusFacts();
    r := line.RemoveLineSection(Sinsa);
    stations := line.GetStations();
    first := line.sections[0].distance as int;
  }

  /** Removing the downstream terminus drops its section only. */
  method RemoveDownTerminus() returns (r: Outcome, stations: seq<string>, first: int)
    ensures r == Pass && stations == [Gangnam, Gwanggyo] && first == 10
  {
    var line := NewSinbundang();
    AddDownTerminusFacts(5);
    var added := line.AddLineSection(Gwanggyo, Suwon, 5);
    RemoveDownTerminusFacts(5);
    r := line.RemoveLineSection(Suwon);
    stations := line.GetStations();
    first := line.sections[0].distance as int;
  }

  /** No station of a one-section line can be removed. */
  method RemoveFromOneSection() returns (r: Outcome)
    ensures r == Fail(CannotDelete(OnlyOneSection))
  {
    var line := NewSinbundang();
    RefusalFacts();
    r := line.RemoveLineSection(Gangnam);
  }

  /** A station that is not on the line cannot be removed, even from a one-section line. */
  method RemoveUnknown() returns (r: Outcome)
    ensures r == Fail(CannotDelete(StationNotOnLine))
  {
    var line := NewSinbundang();
    RefusalFacts();
    r := line.RemoveLineSection(Sinsa);
  }
}
