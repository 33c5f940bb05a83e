/** The six question families, their instances (a template bound to the seekers' input) and
    the QuestionManager catalogue. */
module Questions {
  import opened Exceptions
  import opened Text
  import Interfaces

  /** Seconds allowed for a photo question. Read from hide_and_seek.cfg, which is not part of
      this model; no proof here depends on the value. */
  const DEFAULT_ALLOCATED_PHOTO_TIME: nat := 900

  /** A distance in tenths of a kilometre. The source holds Radar and Thermometer distances as
      Python numbers (0.5, 1, 2, ...); tenths represent every value the catalogue uses. */
  type Distance = nat

  datatype Family = Matching | Measuring | Radar | Thermometer | Tentacles | Photo

  /** A question template, as the catalogue holds it. */
  datatype Question =
    | MatchingQuestion(location: string)
    | MeasuringQuestion(location: string)
    | TentaclesQuestion(locationType: string)
    | RadarQuestion(distance: Distance)
    | ThermometerQuestion(minDistance: Distance)
    | PhotoQuestion(photoType: string)

  /** A question instance: the template's data plus what the seekers supplied. Matching and
      Measuring keep the raw input; Tentacles and Thermometer keep it split on "," and
      stripped; Radar and Photo take none. */
  datatype Instance =
    | MatchingInstance(location: string, userInput: string)
    | MeasuringInstance(location: string, userInput: string)
    | TentaclesInstance(locationType: string, places: seq<string>)
    | RadarInstance(distance: Distance)
    | ThermometerInstance(minDistance: Distance, points: seq<string>)
    | PhotoInstance(photoType: string)

  /** Draw `draw` cards and keep `keep` of them. */
  datatype Reward = Reward(draw: nat, keep: nat)

  function FamilyOf(q: Question): Family
  {
    match q
    case MatchingQuestion(_) => Matching
    case MeasuringQuestion(_) => Measuring
    case TentaclesQuestion(_) => Tentacles
    case RadarQuestion(_) => Radar
    case ThermometerQuestion(_) => Thermometer
    case PhotoQuestion(_) => Photo
  }

  /** The template an instance was made from (each instance class inherits from its
      template class). */
  function Template(i: Instance): Question
  {
    match i
    case MatchingInstance(l, _) => MatchingQuestion(l)
    case MeasuringInstance(l, _) => MeasuringQuestion(l)
    case TentaclesInstance(t, _) => TentaclesQuestion(t)
    case RadarInstance(d) => RadarQuestion(d)
    case ThermometerInstance(d, _) => ThermometerQuestion(d)
    case PhotoInstance(p) => PhotoQuestion(p)
  }

  /** `get_reward`: the (draw, keep) tuple of the question's family. */
  function GetReward(q: Question): (r: Reward)
    ensures 1 <= r.keep <= r.draw <= 4
  {
    match q
    case MatchingQuestion(_) => Reward(3, 1)
    case MeasuringQuestion(_) => Reward(3, 1)
    case TentaclesQuestion(_) => Reward(4, 2)
    case RadarQuestion(_) => Reward(2, 1)
    case ThermometerQuestion(_) => Reward(2, 1)
    case PhotoQuestion(_) => Reward(1, 1)
  }

  /** The reward tuples family by family. */
  lemma RewardTable(q: Question)
    ensures FamilyOf(q) in {Matching, Measuring} ==> GetReward(q) == Reward(3, 1)
    ensures FamilyOf(q) == Tentacles ==> GetReward(q) == Reward(4, 2)
    ensures FamilyOf(q) in {Radar, Thermometer} ==> GetReward(q) == Reward(2, 1)
    ensures FamilyOf(q) == Photo ==> GetReward(q) == Reward(1, 1)
  {
  }

  /** `get_allocated_time`: only Photo overrides the default of the Question base class. */
  function GetAllocatedTime(q: Question): (seconds: nat)
    ensures q.PhotoQuestion? ==> seconds == DEFAULT_ALLOCATED_PHOTO_TIME
    ensures !q.PhotoQuestion? ==> seconds == Interfaces.DEFAULT_ALLOCATED_QUESTION_TIME
  {
    if q.PhotoQuestion? then DEFAULT_ALLOCATED_PHOTO_TIME
    else Interfaces.DEFAULT_ALLOCATED_QUESTION_TIME
  }

  /** Renders a distance as Python prints the catalogue's numbers: "0.5", "1", "15". */
  function DistanceText(d: Distance): string
  {
    if d % 10 == 0 then NatToString(d / 10) else NatToString(d / 10) + "." + NatToString(d % 10)
  }

  /** `get_short_question`: the location, location type or photo subject, or the distance
      followed by "km". */
  function ShortQuestion(q: Question): string
  {
    match q
    case MatchingQuestion(l) => l
    case MeasuringQuestion(l) => l
    case TentaclesQuestion(t) => t
    case RadarQuestion(d) => DistanceText(d) + "km"
    case ThermometerQuestion(d) => DistanceText(d) + "km"
    case PhotoQuestion(p) => p
  }

  /** `to_instance` as written. Radar and Photo assert that the input is empty; the
      Thermometer instance asserts that the raw input string has length 2. */
  function ToInstance(q: Question, userInput: string): (r: Result<Instance>)
    ensures r.Ok? ==> Template(r.value) == q
    ensures r.Err? ==> r.error == AssertionFailed
    ensures r.Err? <==>
      ((q.RadarQuestion? || q.PhotoQuestion?) && userInput != "") ||
      (q.ThermometerQuestion? && |userInput| != 2)
  {
    match q
    case MatchingQuestion(l) => Ok(MatchingInstance(l, userInput))
    case MeasuringQuestion(l) => Ok(MeasuringInstance(l, userInput))
    case TentaclesQuestion(t) => Ok(TentaclesInstance(t, SplitStrip(userInput)))
    case RadarQuestion(d) => if userInput == "" then Ok(RadarInstance(d)) else Err(AssertionFailed)
    case ThermometerQuestion(d) =>
      if |userInput| == 2 then Ok(ThermometerInstance(d, SplitStrip(userInput))) else Err(AssertionFailed)
    case PhotoQuestion(p) => if userInput == "" then Ok(PhotoInstance(p)) else Err(AssertionFailed)
  }

  /** An instance inherits reward, allocated time and short question from its template. */
  lemma InstanceKeepsTemplate(q: Question, userInput: string)
    requires ToInstance(q, userInput).Ok?
    ensures var i := ToInstance(q, userInput).value;
      GetReward(Template(i)) == GetReward(q) &&
      GetAllocatedTime(Template(i)) == GetAllocatedTime(q) &&
      ShortQuestion(Template(i)) == ShortQuestion(q)
  {
  }

  /** `get_user_input`: the raw input, the parsed parts rejoined with ", ", or "". */
  function GetUserInput(i: Instance): string
  {
    match i
    case MatchingInstance(_, s) => s
    case MeasuringInstance(_, s) => s
    case TentaclesInstance(_, places) => Join(places)
    case RadarInstance(_) => ""
    case ThermometerInstance(_, points) => Join(points)
    case PhotoInstance(_) => ""
  }

  /** Binding a template to the input an instance reports gives that instance back, for every
      family but Thermometer (whose rendered input need not have length 2). */
  lemma {:induction false} UserInputRoundTrip(q: Question, userInput: string)
    requires ToInstance(q, userInput).Ok?
    requires !q.ThermometerQuestion?
    ensures ToInstance(q, GetUserInput(ToInstance(q, userInput).value)) == ToInstance(q, userInput)
  {
    match q
    case TentaclesQuestion(t) => TentaclesRoundTrip(t, userInput);
    case _ =>
  }

  lemma TentaclesRoundTrip(t: string, userInput: string)
    ensures ToInstance(TentaclesQuestion(t), Join(SplitStrip(userInput))) ==
            ToInstance(TentaclesQuestion(t), userInput)
  {
    var rendered := Join(SplitStrip(userInput));
    ParseRenderParse(userInput);
    TentaclesInstanceOf(t, userInput);
    TentaclesInstanceOf(t, rendered);
  }

  lemma TentaclesInstanceOf(t: string, userInput: string)
    ensures ToInstance(TentaclesQuestion(t), userInput) == Ok(TentaclesInstance(t, SplitStrip(userInput)))
  {
  }

  /** A Thermometer instance made from a one-character place and a comma, such as "a,",
      renders its input with the blank `", ".join` adds, "a, ", which the same template then
      refuses. */
  lemma ThermometerRenderedInputRefused(x: char, d: Distance)
    requires x != ',' && !IsSpace(x)
    ensures ToInstance(ThermometerQuestion(d), [x, ',']) == Ok(ThermometerInstance(d, [[x], []]))
    ensures GetUserInput(ThermometerInstance(d, [[x], []])) == [x, ',', ' ']
    ensures ToInstance(ThermometerQuestion(d), [x, ',', ' ']).Err?
  {
    ThermometerFromPlaceAndComma(x, d);
    ThermometerRendersPlaceAndComma(x, d);
    ThermometerRefusesLength(d, [x, ',', ' ']);
  }

  lemma ThermometerRendersPlaceAndComma(x: char, d: Distance)
    ensures GetUserInput(ThermometerInstance(d, [[x], []])) == [x, ',', ' ']
  {
    JoinPlaceAndEmpty(x);
  }

  lemma ThermometerFromPlaceAndComma(x: char, d: Distance)
    requires x != ',' && !IsSpace(x)
    ensures ToInstance(ThermometerQuestion(d), [x, ',']) == Ok(ThermometerInstance(d, [[x], []]))
  {
    SplitStripOneComma(x);
  }

  lemma ThermometerRefusesLength(d: Distance, userInput: string)
    requires |userInput| != 2
    ensures ToInstance(ThermometerQuestion(d), userInput) == Err(AssertionFailed)
  {
  }

  lemma JoinPlaceAndEmpty(x: char)
    ensures Join([[x], []]) == [x, ',', ' ']
  {
    assert [[x], []][1..] == [[]];
    assert Join([[]]) == [];
    assert [x] + ", " + [] == [x, ',', ' '];
  }

  /** "a," parses into the place "a" and an empty place. */
  lemma SplitStripOneComma(x: char)
    requires x != ',' && !IsSpace(x)
    ensures SplitStrip([x, ',']) == [[x], []]
  {
    SplitOneComma(x);
    var pieces := Split([x, ','], ',');
    StripUnspaced(pieces[0]);
    StripUnspaced(pieces[1]);
    var parts := SplitStrip([x, ',']);
    assert parts[0] == pieces[0] && parts[1] == pieces[1];
  }

  lemma SplitOneComma(x: char)
    requires x != ','
    ensures Split([x, ','], ',') == [[x], []]
  {
    assert [x, ','][1..] == [','];
    assert [','][1..] == [];
    var rest := Split([','], ',');
    assert rest == [[], []];
    assert [x] + rest[0] == [x];
    assert rest[1..] == [[]];
  }

  /** `to_instance` with the Thermometer check applied to the parsed points, as the
      Thermometer full question (which reads the first and second point) needs. */
  function ToInstanceCorrected(q: Question, userInput: string): (r: Result<Instance>)
    ensures r.Ok? ==> Template(r.value) == q
    ensures q.ThermometerQuestion? ==>
      (r.Ok? <==> |SplitStrip(userInput)| == 2) &&
      (r.Ok? ==> r.value.points == SplitStrip(userInput) && |r.value.points| == 2)
    ensures !q.ThermometerQuestion? ==> r == ToInstance(q, userInput)
  {
    match q
    case ThermometerQuestion(d) =>
      var points := SplitStrip(userInput);
      if |points| == 2 then Ok(ThermometerInstance(d, points)) else Err(AssertionFailed)
    case _ => ToInstance(q, userInput)
  }

  /** As written, the Thermometer check looks at the raw string: two places "a, b" (the input
      the full question expects) are always refused, since that string is longer than 2. The
      corrected check accepts them as the instance's two points. */
  lemma {:induction false} ThermometerRefusesTwoPlaces(a: string, b: string, d: Distance)
    requires a != [] && b != []
    requires ',' !in a && ',' !in b && Strip(a) == a && Strip(b) == b
    ensures SplitStrip(a + ", " + b) == [a, b]
    ensures ToInstance(ThermometerQuestion(d), a + ", " + b).Err?
    ensures ToInstanceCorrected(ThermometerQuestion(d), a + ", " + b) == Ok(ThermometerInstance(d, [a, b]))
  {
    var s := a + ", " + b;
    JoinTwo(a, b);
    SplitStripJoin([a, b]);
    ThermometerRefusesLength(d, s);
    ThermometerCorrected(d, s);
  }

  lemma JoinTwo(a: string, b: string)
    ensures Join([a, b]) == a + ", " + b
  {
    assert [a, b][1..] == [b];
  }

  lemma ThermometerCorrected(d: Distance, userInput: string)
    ensures ToInstanceCorrected(ThermometerQuestion(d), userInput) ==
      if |SplitStrip(userInput)| == 2 then Ok(ThermometerInstance(d, SplitStrip(userInput)))
      else Err(AssertionFailed)
  {
  }

  /** As written, any two-character input without a comma is accepted although it names a
      single point, which the full question's second point lookup then lacks. The corrected
      check refuses it. */
  lemma {:induction false} ThermometerAcceptsOnePoint(x: char, y: char, d: Distance)
    requires x != ',' && y != ',' && !IsSpace(x) && !IsSpace(y)
    ensures ToInstance(ThermometerQuestion(d), [x, y]) == Ok(ThermometerInstance(d, [[x, y]]))
    ensures ToInstanceCorrected(ThermometerQuestion(d), [x, y]).Err?
  {
    SplitStripOnePoint(x, y);
    ThermometerInstanceOf(d, [x, y]);
    ThermometerCorrected(d, [x, y]);
  }

  /** "ab" parses into the single place "ab". */
  lemma SplitStripOnePoint(x: char, y: char)
    requires x != ',' && y != ',' && !IsSpace(x) && !IsSpace(y)
    ensures SplitStrip([x, y]) == [[x, y]]
  {
    assert ',' !in [x, y];
    SplitWithoutSeparator([x, y]);
    StripUnspaced([x, y]);
    var parts := SplitStrip([x, y]);
    assert |parts| == 1 && parts[0] == [x, y];
  }

  lemma ThermometerInstanceOf(d: Distance, userInput: string)
    requires |userInput| == 2
    ensures ToInstance(ThermometerQuestion(d), userInput) ==
      Ok(ThermometerInstance(d, SplitStrip(userInput)))
  {
  }

  /** `get_options` of an instance: the answers the hider may give. */
  function GetOptions(i: Instance): (options: seq<string>)
    ensures "NULL" in options
    ensures i.TentaclesInstance? ==> |options| >= 2 && options[2..] == i.places
  {
    match i
    case MatchingInstance(_, _) => ["YES", "NO", "NULL"]
    case MeasuringInstance(_, _) => ["CLOSER", "FURTHER", "NULL"]
    case TentaclesInstance(_, places) => ["OUT OF RANGE", "NULL"] + places
    case RadarInstance(_) => ["HIT", "MISS", "NULL"]
    case ThermometerInstance(_, _) => ["WARMER", "COLDER", "NULL"]
    case PhotoInstance(_) => ["PHOTO SENT", "NULL"]
  }

  /** Tentacles options: the two fixed answers, then each listed place in input order. */
  lemma TentaclesOptions(t: string, userInput: string)
    ensures var opts := GetOptions(ToInstance(TentaclesQuestion(t), userInput).value);
      opts[..2] == ["OUT OF RANGE", "NULL"] && opts[2..] == SplitStrip(userInput)
  {
  }

  function MatchingPlaces(): seq<string>
  {
    ["Commercial Airport", "Transit Line", "Station Name Length", "Local Council Area", "Suburb",
     "Park", "Amusement Park", "Zoo", "Aquarium", "Golf Course", "Museum", "Movie Theatre",
     "Hospital", "Library", "Foreign Consulate"]
  }

  function MeasuringPlaces(): seq<string>
  {
    ["Commercial Airport", "Rail station", "Local Council Border", "Suburb Border",
     "Body of Water", "Coastline", "Park", "Amusement Park", "Zoo", "Aquarium", "Golf Course",
     "Museum", "Movie Theatre", "Hospital", "Library", "Foreign Consulate"]
  }

  /** 0.5, 1, 2, 5, 10, 15, 40, 80 and 160 km */
  function RadarDistances(): seq<Distance>
  {
    [5, 10, 20, 50, 100, 150, 400, 800, 1600]
  }

  /** 1, 5 and 15 km */
  function ThermometerDistances(): seq<Distance>
  {
    [10, 50, 150]
  }

  function TentaclesPlaces(): seq<string>
  {
    ["Museums", "Libraries", "Movie Theatres", "Hospitals"]
  }

  function PhotoSubjects(): seq<string>
  {
    ["a tree", "the sky", "you", "widest street", "tallest structure in your sightline",
     "any building visible from the station", "tallest building visible from the station",
     "trace nearest path or street", "two buildings", "restaurant interior", "park",
     "grocery store aisle"]
  }

  /** `QuestionManager.questions`: the families in catalogue order. */
  function Catalogue(): (qs: seq<Question>)
  {
    seq(|MatchingPlaces()|, k requires 0 <= k < |MatchingPlaces()| => MatchingQuestion(MatchingPlaces()[k]))
    + seq(|MeasuringPlaces()|, k requires 0 <= k < |MeasuringPlaces()| => MeasuringQuestion(MeasuringPlaces()[k]))
    + seq(|RadarDistances()|, k requires 0 <= k < |RadarDistances()| => RadarQuestion(RadarDistances()[k]))
    + seq(|ThermometerDistances()|, k requires 0 <= k < |ThermometerDistances()| => ThermometerQuestion(ThermometerDistances()[k]))
    + seq(|TentaclesPlaces()|, k requires 0 <= k < |TentaclesPlaces()| => TentaclesQuestion(TentaclesPlaces()[k]))
    + seq(|PhotoSubjects()|, k requires 0 <= k < |PhotoSubjects()| => PhotoQuestion(PhotoSubjects()[k]))
  }

  /** The members of `qs` of family `f`, in order. */
  function OfFamily(qs: seq<Question>, f: Family): (r: seq<Question>)
    ensures |r| <= |qs|
    ensures forall q :: q in r <==> q in qs && FamilyOf(q) == f
  {
    if qs == [] then []
    else if FamilyOf(qs[0]) == f then [qs[0]] + OfFamily(qs[1..], f)
    else OfFamily(qs[1..], f)
  }

  /** `get_questions_of_type` as it is evidently meant: exactly the catalogue questions of
      the requested family. As written, its call to `get_possible_questions` builds a set of
      questions, which raises TypeError because `Question` defines `__eq__` without
      `__hash__`. */
  function GetQuestionsOfType(f: Family): (r: seq<Question>)
    ensures forall q :: q in r <==> q in Catalogue() && FamilyOf(q) == f
  {
    OfFamily(Catalogue(), f)
  }

  /** The catalogue holds 59 questions: 15 matching, 16 measuring, 9 radar, 3 thermometer,
      4 tentacles and 12 photo, in that order. */
  lemma CatalogueShape()
    ensures |Catalogue()| == 59
    ensures forall k :: 0 <= k < 15 ==> FamilyOf(Catalogue()[k]) == Matching
    ensures forall k :: 15 <= k < 31 ==> FamilyOf(Catalogue()[k]) == Measuring
    ensures forall k :: 31 <= k < 40 ==> FamilyOf(Catalogue()[k]) == Radar
    ensures forall k :: 40 <= k < 43 ==> FamilyOf(Catalogue()[k]) == Thermometer
    ensures forall k :: 43 <= k < 47 ==> FamilyOf(Catalogue()[k]) == Tentacles
    ensures forall k :: 47 <= k < 59 ==> FamilyOf(Catalogue()[k]) == Photo
  {
  }
}
