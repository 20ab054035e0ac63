/** `get_start_time` (utils/crawler/crawler.py): the millisecond timestamp
    1000 bars of the given timeframe before now. The clock reading
    `int(time.time())` is the parameter `nowS`. */
module StartTime {
  import opened Wrappers

  /** Bar length in seconds of the timeframes the function accepts. */
  function DurationSeconds(timeframe: string): (d: Option<int>)
    ensures d.Some? <==> timeframe in ["5m", "15m", "1h", "4h"]
    ensures d.Some? ==> d.value > 0 && d.value % 300 == 0
  {
    if timeframe == "5m" then Some(300)
    else if timeframe == "15m" then Some(900)
    else if timeframe == "1h" then Some(3600)
    else if timeframe == "4h" then Some(14400)
    else None
  }

  datatype StartTimeError = InvalidTimeframe

  function GetStartTime(timeframe: string, nowS: int): (r: Result<int, StartTimeError>)
    // ValueError for every other timeframe, 1d and 1w included
    ensures r.Err? <==> timeframe !in ["5m", "15m", "1h", "4h"]
    // a whole number of seconds, expressed in milliseconds, strictly before now
    ensures r.Ok? ==> r.value % 1000 == 0 && r.value < nowS * 1000
    // exactly 1000 bars before now
    ensures r.Ok? ==> r.value == nowS * 1000 - 1000 * DurationSeconds(timeframe).value * 1000
  {
    match DurationSeconds(timeframe)
    case None => Err(InvalidTimeframe)
    case Some(seconds) =>
      var duration := 1000 * seconds;
      Ok((nowS - duration) * 1000)
  }

  /** For the same clock reading, a longer timeframe starts earlier. */
  lemma LongerTimeframeStartsEarlier(shorter: string, longer: string, nowS: int)
    requires DurationSeconds(shorter).Some? && DurationSeconds(longer).Some?
    requires DurationSeconds(shorter).value < DurationSeconds(longer).value
    ensures GetStartTime(longer, nowS).value < GetStartTime(shorter, nowS).value
  {
    var s, l := DurationSeconds(shorter).value, DurationSeconds(longer).value;
    assert GetStartTime(longer, nowS).value == nowS * 1000 - l * 1000000;
    assert GetStartTime(shorter, nowS).value == nowS * 1000 - s * 1000000;
  }

  /** The four accepted timeframes, in increasing length, start in decreasing order. */
  lemma StartTimesOrdered(nowS: int)
    ensures GetStartTime("4h", nowS).value < GetStartTime("1h", nowS).value
              < GetStartTime("15m", nowS).value < GetStartTime("5m", nowS).value
  {
    LongerTimeframeStartsEarlier("1h", "4h", nowS);
    LongerTimeframeStartsEarlier("15m", "1h", nowS);
    LongerTimeframeStartsEarlier("5m", "15m", nowS);
  }
}
