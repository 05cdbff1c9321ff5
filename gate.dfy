/** The publication decision taken at the end of a run (buoybot.go:88-102). */
module PublishGate {
  /** The line printed instead of tweeting. */
  const NotTweeting: string := "Not at update interval - not tweeting."

  /** The hours named by the comment above the test; the test itself uses others. */
  const CommentHours: set<int> := {0, 6, 8, 10, 12, 14, 16, 18}

  /** The hour test at buoybot.go:97: the Pacific wall-clock hour is one of eight literals,
      so a run never tweets from 21:00 to 04:59. */
  predicate IsPublishHour(hour: int)
    ensures IsPublishHour(hour) ==> 5 <= hour <= 20
  {
    hour == 5 || hour == 7 || hour == 9 || hour == 11 || hour == 13 || hour == 16 || hour == 18 || hour == 20
  }

  /** The hours of a day at which a run tweets: eight of them, irregularly spaced. */
  function PublishHours(): (hours: set<int>)
    ensures hours == {5, 7, 9, 11, 13, 16, 18, 20}
  {
    var hours := set h | 0 <= h < 24 && IsPublishHour(h);
    forall h ensures h in hours <==> h in {5, 7, 9, 11, 13, 16, 18, 20} {
    }
    hours
  }

  /** What a run does with the formatted observation. */
  datatype Action = Tweet(status: string) | LogOnly(lines: seq<string>)

  function Announce(hour: int, output: string): (a: Action)
    ensures a.Tweet? <==> hour in PublishHours()
    ensures a.Tweet? ==> a.status == output
    ensures a.LogOnly? ==> a.lines == [NotTweeting, output]
  {
    if IsPublishHour(hour) then Tweet(output) else LogOnly([NotTweeting, output])
  }

  /** An hour of the day publishes exactly when it passes the test, and eight hours do. */
  lemma PublishHoursAreTheLiterals()
    ensures forall h :: h in PublishHours() <==> 0 <= h < 24 && IsPublishHour(h)
    ensures |PublishHours()| == 8
  {
  }

  /** Of the hours in the comment, only 16 and 18 are hours at which the code publishes. */
  lemma CommentDisagreesWithCode()
    ensures PublishHours() * CommentHours == {16, 18}
  {
    PublishHoursAreTheLiterals();
  }
}
