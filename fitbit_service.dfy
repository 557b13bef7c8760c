/**
 * The Fitbit service of the health app: the authorisation URL, the shaping of
 * the already-parsed API responses into the app's records, the age and BMI
 * helpers, and the rule set that suggests goals. The HTTP requests themselves
 * are not modelled: each shaping member takes the parsed JSON body as input.
 */
module FitbitService {

  import opened Wrappers
  import opened JsValues
  import opened JsObjects

  // ---------------------------------------------------------------- OAuth

  /** The values the service reads from its environment when it is built. */
  datatype Credentials = Credentials(clientId: string, clientSecret: string, redirectUri: string)

  const AuthorizePrefix: string := "https://www.fitbit.com/oauth2/authorize?response_type=code&client_id="
  const RedirectParam: string := "&redirect_uri="
  const ScopeSuffix: string := "&scope=profile activity heartrate sleep weight&expires_in=604800"

  /** The page the user is sent to in order to grant the app access. */
  function GetAuthorizationUrl(c: Credentials): (url: string)
    ensures |url| == |AuthorizePrefix| + |c.clientId| + |RedirectParam| + |c.redirectUri| + |ScopeSuffix|
    ensures url[..|AuthorizePrefix|] == AuthorizePrefix
    ensures url[|AuthorizePrefix|..|AuthorizePrefix| + |c.clientId|] == c.clientId
    ensures var p := |AuthorizePrefix| + |c.clientId|;
      url[p..p + |RedirectParam|] == RedirectParam
    ensures var p := |AuthorizePrefix| + |c.clientId| + |RedirectParam|;
      url[p..p + |c.redirectUri|] == c.redirectUri
    ensures url[|url| - |ScopeSuffix|..] == ScopeSuffix
  {
    AuthorizePrefix + c.clientId + RedirectParam + c.redirectUri + ScopeSuffix
  }

  /** The index of the first '&' in `s`, or |s| when there is none. */
  function FirstAmpersand(s: string): (i: nat)
    ensures i <= |s|
    ensures forall j :: 0 <= j < i ==> s[j] != '&'
    ensures i < |s| ==> s[i] == '&'
  {
    if s == [] || s[0] == '&' then 0 else 1 + FirstAmpersand(s[1..])
  }

  lemma {:induction false} FirstAmpersandAfter(id: string, rest: string)
    requires '&' !in id && rest != [] && rest[0] == '&'
    ensures FirstAmpersand(id + rest) == |id|
  {
    if id != [] {
      assert (id + rest)[1..] == id[1..] + rest;
      FirstAmpersandAfter(id[1..], rest);
    }
  }

  /** Two fields separated by a `mid` that starts with '&' can be read back when the first holds no '&'. */
  lemma {:induction false} FieldsDetermined(pre: string, c1: string, r1: string, c2: string, r2: string, mid: string, suf: string)
    requires '&' !in c1 && '&' !in c2 && mid != [] && mid[0] == '&'
    requires pre + c1 + mid + r1 + suf == pre + c2 + mid + r2 + suf
    ensures c1 == c2 && r1 == r2
  {
    var u := pre + c1 + mid + r1 + suf;
    var t1 := mid + r1 + suf;
    var t2 := mid + r2 + suf;
    assert u == pre + (c1 + t1);
    assert u == pre + (c2 + t2);
    assert c1 + t1 == u[|pre|..] == c2 + t2;
    FirstAmpersandAfter(c1, t1);
    FirstAmpersandAfter(c2, t2);
    assert c1 == (c1 + t1)[..|c1|];
    assert c2 == (c2 + t2)[..|c2|];
    var q := |pre| + |c1| + |mid|;
    assert u == (pre + c1 + mid) + r1 + suf;
    assert u == (pre + c2 + mid) + r2 + suf;
    assert r1 == u[q..|u| - |suf|];
    assert r2 == u[q..|u| - |suf|];
  }

  /**
   * The URL gives back the client id and the redirect URI it was built from,
   * as long as the client id holds no '&' (the URL does not encode it).
   */
  lemma AuthorizationUrlDetermines(c: Credentials, d: Credentials)
    requires '&' !in c.clientId && '&' !in d.clientId
    requires GetAuthorizationUrl(c) == GetAuthorizationUrl(d)
    ensures c.clientId == d.clientId && c.redirectUri == d.redirectUri
  {
    FieldsDetermined(AuthorizePrefix, c.clientId, c.redirectUri, d.clientId, d.redirectUri, RedirectParam, ScopeSuffix);
  }

  // ---------------------------------------------------------------- dates and age

  /** A calendar date; JavaScript's zero-based months do not matter here, since only differences are used. */
  datatype Date = Date(year: int, month: int, day: int)

  /** `a` falls on or before `b`. */
  predicate NotAfter(a: Date, b: Date)
  {
    a.year < b.year
    || (a.year == b.year && (a.month < b.month || (a.month == b.month && a.day <= b.day)))
  }

  /** The `n`-th anniversary of `birth`. */
  function Anniversary(birth: Date, n: int): Date
  {
    Date(birth.year + n, birth.month, birth.day)
  }

  /** Exactly `age` birthdays have passed on `today`: the age-th has come, the next has not. */
  predicate IsAgeOn(age: int, birth: Date, today: Date)
  {
    NotAfter(Anniversary(birth, age), today) && !NotAfter(Anniversary(birth, age + 1), today)
  }

  /** Today's month and day come before the birth month and day. */
  predicate BeforeBirthdayInYear(today: Date, birth: Date)
  {
    today.month < birth.month || (today.month == birth.month && today.day < birth.day)
  }

  /** The user's age in whole years on `today`, which the source reads from the clock. */
  method CalculateAge(birth: Date, today: Date) returns (age: int)
    ensures IsAgeOn(age, birth, today)
    ensures age == today.year - birth.year - 1 <==> BeforeBirthdayInYear(today, birth)
    ensures NotAfter(birth, today) ==> age >= 0
  {
    age := today.year - birth.year;
    var monthDiff := today.month - birth.month;
    if monthDiff < 0 || (monthDiff == 0 && today.day < birth.day) {
      age := age - 1;
    }
  }

  /** At most one age fits a birth date and a day. */
  lemma AgeIsUnique(a: int, b: int, birth: Date, today: Date)
    requires IsAgeOn(a, birth, today) && IsAgeOn(b, birth, today)
    ensures a == b
  {
  }

  // ---------------------------------------------------------------- BMI

  /**
   * `calculateBMI(weight, height)`: weight in kilograms over the square of the
   * height in metres, printed with one decimal (the value that string denotes).
   */
  function CalculateBmi(weight: real, height: real): (bmi: Number)
    ensures height != 0.0 ==> bmi.Finite?
    ensures height != 0.0 ==> Abs(bmi.value - weight * 10000.0 / (height * height)) <= 0.05
    ensures height != 0.0 && weight >= 0.0 ==> bmi.value >= 0.0
    ensures height != 0.0 ==> bmi.value == RoundToTenth(weight * 10000.0 / (height * height))
    ensures height != 0.0 && Abs(weight * 10000.0 / (height * height)) < FixedLimit ==> IsTenths(bmi.value)
    ensures height == 0.0 ==> bmi == Divide(weight, 0.0)
  {
    var heightInMeters := height / 100.0;
    var q := Divide(weight, heightInMeters * heightInMeters);
    assert height != 0.0 ==> q.Finite? && q.value == weight * 10000.0 / (height * height) by {
      if height != 0.0 {
        assert heightInMeters * heightInMeters == height * height / 10000.0;
      }
    }
    ToFixed1(q)
  }

  /** 75.5 kg at 175 cm gives a BMI of 24.7. */
  lemma BmiExample()
    ensures CalculateBmi(75.5, 175.0) == Finite(24.7)
  {
    assert 75.5 / ((175.0 / 100.0) * (175.0 / 100.0)) == 755000.0 / 30625.0;
    assert (10.0 * (755000.0 / 30625.0) + 0.5).Floor == 247;
  }

  // ---------------------------------------------------------------- shaping the API responses

  /** The `user` object of the profile response. */
  datatype ProfileJson = ProfileJson(
    firstName: string, lastName: string, dateOfBirth: Date, gender: string, weight: real, height: real)

  /** The profile record the service hands to the app. */
  datatype UserProfile = UserProfile(name: string, age: int, gender: string, weight: real, height: real)

  /** `name` is the first name, one space, then the last name. */
  predicate IsFullName(name: string, first: string, last: string)
  {
    && |name| == |first| + 1 + |last|
    && name[..|first|] == first
    && name[|first|] == ' '
    && name[|first| + 1..] == last
  }

  /** `getUserProfile`, from the parsed response body on `today`. */
  method GetUserProfile(user: ProfileJson, today: Date) returns (p: UserProfile)
    ensures IsFullName(p.name, user.firstName, user.lastName)
    ensures IsAgeOn(p.age, user.dateOfBirth, today)
    ensures p.gender == user.gender && p.weight == user.weight && p.height == user.height
  {
    var age := CalculateAge(user.dateOfBirth, today);
    p := UserProfile(user.firstName + " " + user.lastName, age, user.gender, user.weight, user.height);
  }

  /** One entry of `summary.distances`. */
  datatype DistanceEntry = DistanceEntry(activity: string, distance: real)

  /** The `summary` object of the activity response. */
  datatype ActivitySummary = ActivitySummary(
    steps: int, caloriesOut: int, veryActiveMinutes: int, fairlyActiveMinutes: int,
    distances: seq<DistanceEntry>)

  datatype ActivityData = ActivityData(steps: int, calories: int, activeMinutes: int, distance: real)

  /** `distances[0]?.distance || 0`: a missing first entry is undefined, which is falsy. */
  function FirstDistance(distances: seq<DistanceEntry>): (d: real)
    ensures distances == [] ==> d == 0.0
    ensures distances != [] ==> d == distances[0].distance
  {
    var first: Option<real> := if distances == [] then None else Some(distances[0].distance);
    match first
    case Some(v) => if v != 0.0 then v else 0.0
    case None => 0.0
  }

  /** `getActivityData`, from the parsed `summary`. */
  function GetActivityData(summary: ActivitySummary): (a: ActivityData)
    ensures a.steps == summary.steps && a.calories == summary.caloriesOut
    ensures a.activeMinutes == summary.veryActiveMinutes + summary.fairlyActiveMinutes
    ensures a.distance == if summary.distances == [] then 0.0 else summary.distances[0].distance
  {
    ActivityData(
      summary.steps, summary.caloriesOut,
      summary.veryActiveMinutes + summary.fairlyActiveMinutes,
      FirstDistance(summary.distances))
  }

  /** The `summary` object of the sleep response; `stages` maps a stage to its minutes. */
  datatype SleepSummary = SleepSummary(totalMinutesAsleep: int, efficiency: int, stages: map<string, int>)

  datatype SleepData = SleepData(sleepHours: real, sleepEfficiency: int, sleepStages: map<string, int>)

  /** `getSleepData`, from the parsed `summary`. */
  function GetSleepData(summary: SleepSummary): (s: SleepData)
    ensures s.sleepHours * 60.0 == summary.totalMinutesAsleep as real
    ensures s.sleepHours < 7.0 <==> summary.totalMinutesAsleep < 420
    ensures s.sleepEfficiency == summary.efficiency && s.sleepStages == summary.stages
  {
    SleepData(summary.totalMinutesAsleep as real / 60.0, summary.efficiency, summary.stages)
  }

  datatype HeartRateZone = HeartRateZone(name: string, min: int, max: int, minutes: int)

  /** The `value` of one day of the heart-rate response; each key may be missing. */
  datatype HeartValue = HeartValue(restingHeartRate: Option<int>, heartRateZones: Option<seq<HeartRateZone>>)

  /** One element of `activities-heart`; its `value` may be missing. */
  datatype HeartDay = HeartDay(dateTime: string, value: Option<HeartValue>)

  datatype HeartRateData = HeartRateData(restingHeartRate: Option<int>, heartRateZones: Option<seq<HeartRateZone>>)

  /** `getHeartRateData`: `activities-heart[0]?.value?.…`, each step yielding undefined when absent. */
  function GetHeartRateData(activitiesHeart: seq<HeartDay>): (h: HeartRateData)
    ensures h.restingHeartRate.Some? <==>
      activitiesHeart != [] && activitiesHeart[0].value.Some?
      && activitiesHeart[0].value.value.restingHeartRate.Some?
    ensures h.restingHeartRate.Some? ==>
      h.restingHeartRate == activitiesHeart[0].value.value.restingHeartRate
    ensures h.heartRateZones.Some? <==>
      activitiesHeart != [] && activitiesHeart[0].value.Some?
      && activitiesHeart[0].value.value.heartRateZones.Some?
    ensures h.heartRateZones.Some? ==>
      h.heartRateZones == activitiesHeart[0].value.value.heartRateZones
  {
    if activitiesHeart == [] then HeartRateData(None, None)
    else match activitiesHeart[0].value
      case None => HeartRateData(None, None)
      case Some(v) => HeartRateData(v.restingHeartRate, v.heartRateZones)
  }

  // ---------------------------------------------------------------- goal suggestion

  const ImproveSleep: string := "Improve Sleep"
  const BoostEnergy: string := "Boost Energy"
  const FatLoss: string := "Fat Loss"
  const MaintainHealth: string := "Maintain Health"
  const Longevity: string := "Longevity"

  /** The pair suggested when no rule fires. */
  const DefaultGoals: seq<string> := [MaintainHealth, Longevity]

  /** Every label the rule set can produce. */
  const GoalLabels: set<string> := {ImproveSleep, BoostEnergy, FatLoss, MaintainHealth, Longevity}

  /** `heartRate.restingHeartRate > 70`: undefined compared with a number is false. */
  predicate RestingRateAbove(h: HeartRateData, limit: int)
  {
    h.restingHeartRate.Some? && h.restingHeartRate.value > limit
  }

  /** One suggestion rule: whether it fires, and the labels it adds when it does. */
  datatype Rule = Rule(fires: bool, labels: seq<string>)

  /** The rule table, in the order the rules are checked. */
  function Rules(activity: ActivityData, sleep: SleepData, heartRate: HeartRateData): seq<Rule>
  {
    [ Rule(sleep.sleepHours < 7.0, [ImproveSleep]),
      Rule(activity.steps < 10000, [BoostEnergy]),
      Rule(activity.calories > 2500, [FatLoss]),
      Rule(RestingRateAbove(heartRate, 70), [ImproveSleep, BoostEnergy]) ]
  }

  /** What one rule adds. */
  function Added(rule: Rule): seq<string>
  {
    if rule.fires then rule.labels else []
  }

  /** The labels of the rules that fire, in table order, duplicates kept. */
  function FiredLabels(rules: seq<Rule>): seq<string>
  {
    if rules == [] then [] else Added(rules[0]) + FiredLabels(rules[1..])
  }

  /** The rule table's fired labels, rule by rule. */
  lemma FiredLabelsOfRules(activity: ActivityData, sleep: SleepData, heartRate: HeartRateData)
    ensures var r := Rules(activity, sleep, heartRate);
      FiredLabels(r) == Added(r[0]) + Added(r[1]) + Added(r[2]) + Added(r[3])
  {
    var r := Rules(activity, sleep, heartRate);
    FiredLabelsOfFour(r[0], r[1], r[2], r[3]);
    assert r == [r[0], r[1], r[2], r[3]];
  }

  lemma FiredLabelsOfFour(a: Rule, b: Rule, c: Rule, d: Rule)
    ensures FiredLabels([a, b, c, d]) == Added(a) + Added(b) + Added(c) + Added(d)
  {
    assert [a, b, c, d][1..] == [b, c, d];
    assert [b, c, d][1..] == [c, d];
    assert [c, d][1..] == [d];
    assert [d][1..] == [];
    assert FiredLabels([d]) == Added(d);
    assert FiredLabels([c, d]) == Added(c) + Added(d);
  }

  /** The goals the rule table suggests: the fired labels, or the default pair when none fired. */
  function SuggestedGoals(activity: ActivityData, sleep: SleepData, heartRate: HeartRateData): seq<string>
  {
    var fired := FiredLabels(Rules(activity, sleep, heartRate));
    if fired == [] then DefaultGoals else fired
  }

  /** Some rule of the table fires. */
  predicate AnyRuleFires(activity: ActivityData, sleep: SleepData, heartRate: HeartRateData)
  {
    sleep.sleepHours < 7.0 || activity.steps < 10000 || activity.calories > 2500
    || RestingRateAbove(heartRate, 70)
  }

  /** `suggestGoals`: the goals are pushed one rule after the other. */
  method SuggestGoals(activity: ActivityData, sleep: SleepData, heartRate: HeartRateData)
    returns (goals: seq<string>)
    ensures goals == SuggestedGoals(activity, sleep, heartRate)
  {
    ghost var r := Rules(activity, sleep, heartRate);
    FiredLabelsOfRules(activity, sleep, heartRate);
    goals := [];
    if sleep.sleepHours < 7.0 {
      goals := goals + [ImproveSleep];
    }
    assert goals == Added(r[0]);
    if activity.steps < 10000 {
      goals := goals + [BoostEnergy];
    }
    assert goals == Added(r[0]) + Added(r[1]);
    if activity.calories > 2500 {
      goals := goals + [FatLoss];
    }
    assert goals == Added(r[0]) + Added(r[1]) + Added(r[2]);
    if RestingRateAbove(heartRate, 70) {
      goals := goals + [ImproveSleep];
      goals := goals + [BoostEnergy];
    }
    assert goals == FiredLabels(r);
    if |goals| == 0 {
      goals := goals + [MaintainHealth, Longevity];
    }
  }

  /** How often `x` occurs in `s`. */
  function Count(s: seq<string>, x: string): nat
  {
    if s == [] then 0 else (if s[0] == x then 1 else 0) + Count(s[1..], x)
  }

  lemma {:induction false} CountAppend(a: seq<string>, b: seq<string>, x: string)
    ensures Count(a + b, x) == Count(a, x) + Count(b, x)
  {
    if a == [] {
      assert a + b == b;
    } else {
      assert (a + b)[0] == a[0];
      assert (a + b)[1..] == a[1..] + b;
      CountAppend(a[1..], b, x);
    }
  }

  lemma CountSingle(a: string, x: string)
    ensures Count([a], x) == Indicator(a == x)
  {
    assert [a][1..] == [];
  }

  lemma CountPair(a: string, b: string, x: string)
    ensures Count([a, b], x) == Indicator(a == x) + Indicator(b == x)
  {
    assert [a, b][1..] == [b];
    CountSingle(b, x);
  }

  function Indicator(b: bool): nat
  {
    if b then 1 else 0
  }

  /**
   * The suggestion is never empty, holds one to five labels, all from the known
   * set, and is the default pair exactly when no rule fires.
   */
  lemma SuggestedGoalsShape(activity: ActivityData, sleep: SleepData, heartRate: HeartRateData)
    ensures var goals := SuggestedGoals(activity, sleep, heartRate);
      && 1 <= |goals| <= 5
      && (forall g :: g in goals ==> g in GoalLabels)
      && (goals == DefaultGoals <==> !AnyRuleFires(activity, sleep, heartRate))
      && (MaintainHealth in goals <==> !AnyRuleFires(activity, sleep, heartRate))
      && (Longevity in goals <==> !AnyRuleFires(activity, sleep, heartRate))
  {
    FiredLabelsOfRules(activity, sleep, heartRate);
    var fired := FiredLabels(Rules(activity, sleep, heartRate));
    assert forall g :: g in fired ==> g in {ImproveSleep, BoostEnergy, FatLoss};
    assert DefaultGoals[0] !in fired;
  }

  /**
   * When some rule fires, each label occurs once per rule that adds it: the
   * heart-rate rule repeats "Improve Sleep" and "Boost Energy" rather than
   * merging them.
   */
  lemma SuggestedGoalsCounts(activity: ActivityData, sleep: SleepData, heartRate: HeartRateData)
    requires AnyRuleFires(activity, sleep, heartRate)
    ensures var goals := SuggestedGoals(activity, sleep, heartRate);
      && Count(goals, ImproveSleep) == Indicator(sleep.sleepHours < 7.0) + Indicator(RestingRateAbove(heartRate, 70))
      && Count(goals, BoostEnergy) == Indicator(activity.steps < 10000) + Indicator(RestingRateAbove(heartRate, 70))
      && Count(goals, FatLoss) == Indicator(activity.calories > 2500)
      && |goals| == Count(goals, ImproveSleep) + Count(goals, BoostEnergy) + Count(goals, FatLoss)
  {
    assert |ImproveSleep| == 13 && |BoostEnergy| == 12 && |FatLoss| == 8;
    var r := Rules(activity, sleep, heartRate);
    CountFired(activity, sleep, heartRate, ImproveSleep);
    CountFired(activity, sleep, heartRate, BoostEnergy);
    CountFired(activity, sleep, heartRate, FatLoss);
    FiredLabelsOfRules(activity, sleep, heartRate);
    var fired := FiredLabels(r);
    assert |fired| == |Added(r[0])| + |Added(r[1])| + |Added(r[2])| + |Added(r[3])|;
  }

  /** How often `x` is suggested, rule by rule. */
  lemma CountFired(activity: ActivityData, sleep: SleepData, heartRate: HeartRateData, x: string)
    ensures var r := Rules(activity, sleep, heartRate);
      Count(FiredLabels(r), x)
        == Indicator(r[0].fires && ImproveSleep == x) + Indicator(r[1].fires && BoostEnergy == x)
         + Indicator(r[2].fires && FatLoss == x)
         + Indicator(r[3].fires && ImproveSleep == x) + Indicator(r[3].fires && BoostEnergy == x)
  {
    var r := Rules(activity, sleep, heartRate);
    FiredLabelsOfRules(activity, sleep, heartRate);
    CountSingle(ImproveSleep, x);
    CountSingle(BoostEnergy, x);
    CountSingle(FatLoss, x);
    CountPair(ImproveSleep, BoostEnergy, x);
    assert Count([], x) == 0;
    CountAppend(Added(r[0]), Added(r[1]), x);
    CountAppend(Added(r[0]) + Added(r[1]), Added(r[2]), x);
    CountAppend(Added(r[0]) + Added(r[1]) + Added(r[2]), Added(r[3]), x);
  }

  /** The first rule's label, when it fires, comes first; the heart-rate rule's pair, when it fires, comes last. */
  lemma SuggestedGoalsOrder(activity: ActivityData, sleep: SleepData, heartRate: HeartRateData)
    ensures var goals := SuggestedGoals(activity, sleep, heartRate);
      && (sleep.sleepHours < 7.0 ==> goals[0] == ImproveSleep)
      && (RestingRateAbove(heartRate, 70) ==> |goals| >= 2 && goals[|goals| - 2..] == [ImproveSleep, BoostEnergy])
  {
    FiredLabelsOfRules(activity, sleep, heartRate);
    var r := Rules(activity, sleep, heartRate);
    var front := Added(r[0]) + Added(r[1]) + Added(r[2]);
    assert FiredLabels(r) == front + Added(r[3]);
    if RestingRateAbove(heartRate, 70) {
      assert (front + [ImproveSleep, BoostEnergy])[|front|..] == [ImproveSleep, BoostEnergy];
    }
  }

  /** A missing resting heart rate never fires the heart-rate rule: it acts like a rate of 70. */
  lemma MissingRestingRateNeverFires(activity: ActivityData, sleep: SleepData, heartRate: HeartRateData)
    requires heartRate.restingHeartRate.None?
    ensures SuggestedGoals(activity, sleep, heartRate)
         == SuggestedGoals(activity, sleep, heartRate.(restingHeartRate := Some(70)))
    ensures Count(SuggestedGoals(activity, sleep, heartRate), ImproveSleep) <= 1
  {
    SuggestedGoalsShape(activity, sleep, heartRate);
    if AnyRuleFires(activity, sleep, heartRate) {
      SuggestedGoalsCounts(activity, sleep, heartRate);
    } else {
      assert |MaintainHealth| == 15 && |Longevity| == 9 && |ImproveSleep| == 13;
      CountPair(MaintainHealth, Longevity, ImproveSleep);
    }
  }

  /** Worked example: only the sleep rule fires. */
  lemma SuggestedGoalsSleepOnly()
    ensures SuggestedGoals(ActivityData(12000, 2000, 30, 0.0), SleepData(6.0, 90, map[]),
                           HeartRateData(Some(65), None)) == [ImproveSleep]
  {
    FiredLabelsOfRules(ActivityData(12000, 2000, 30, 0.0), SleepData(6.0, 90, map[]), HeartRateData(Some(65), None));
  }

  /** Worked example: no rule fires. */
  lemma SuggestedGoalsNoneFires()
    ensures SuggestedGoals(ActivityData(12000, 2000, 30, 0.0), SleepData(8.0, 90, map[]),
                           HeartRateData(Some(65), None)) == DefaultGoals
  {
    FiredLabelsOfRules(ActivityData(12000, 2000, 30, 0.0), SleepData(8.0, 90, map[]), HeartRateData(Some(65), None));
  }

  /** Worked example: every rule fires. */
  lemma SuggestedGoalsAllFire()
    ensures SuggestedGoals(ActivityData(5000, 3000, 30, 0.0), SleepData(6.0, 90, map[]),
                           HeartRateData(Some(75), None))
         == [ImproveSleep, BoostEnergy, FatLoss, ImproveSleep, BoostEnergy]
  {
    FiredLabelsOfRules(ActivityData(5000, 3000, 30, 0.0), SleepData(6.0, 90, map[]), HeartRateData(Some(75), None));
  }

  // ---------------------------------------------------------------- everything together

  /** The user record of `getAllUserData`: the profile plus its BMI. */
  datatype UserRecord = UserRecord(name: string, age: int, gender: string, weight: real, height: real, bmi: Number)

  datatype AllUserData = AllUserData(
    user: UserRecord, activity: ActivityData, sleep: SleepData, heartRate: HeartRateData,
    goals: seq<string>, connectedApps: BoolObject)

  /** The apps listed as connected: Fitbit on, Oura and Apple Health off, in that order. */
  const FitbitConnectedApps: BoolObject :=
    [Property("Fitbit", true), Property("Oura", false), Property("Apple Health", false)]

  /**
   * `getAllUserData`: the four responses, already fetched and parsed, combined
   * into one record.
   */
  method GetAllUserData(
    user: ProfileJson, summary: ActivitySummary, sleepSummary: SleepSummary,
    activitiesHeart: seq<HeartDay>, today: Date)
    returns (all: AllUserData)
    ensures IsFullName(all.user.name, user.firstName, user.lastName)
    ensures IsAgeOn(all.user.age, user.dateOfBirth, today)
    ensures all.user.gender == user.gender && all.user.weight == user.weight && all.user.height == user.height
    ensures all.user.bmi == CalculateBmi(all.user.weight, all.user.height)
    ensures all.activity == GetActivityData(summary)
    ensures all.sleep == GetSleepData(sleepSummary)
    ensures all.heartRate == GetHeartRateData(activitiesHeart)
    ensures all.goals == SuggestedGoals(all.activity, all.sleep, all.heartRate)
    ensures all.goals != []
    ensures all.connectedApps == FitbitConnectedApps
  {
    var profile := GetUserProfile(user, today);
    var activity := GetActivityData(summary);
    var sleep := GetSleepData(sleepSummary);
    var heartRate := GetHeartRateData(activitiesHeart);
    var goals := SuggestGoals(activity, sleep, heartRate);
    SuggestedGoalsShape(activity, sleep, heartRate);
    all := AllUserData(
      UserRecord(profile.name, profile.age, profile.gender, profile.weight, profile.height,
                 CalculateBmi(profile.weight, profile.height)),
      activity, sleep, heartRate, goals, FitbitConnectedApps);
  }
}
