/** Time-aligned words and their wire form: src/aligned-word.h and the conversion at the top of
    src/api/services.cc. */
module Alignment {

  /** A word with its start and duration in milliseconds. */
  datatype AlignedWord = AlignedWord(startTime: int, duration: int, symbol: string)

  /** A protobuf Duration. */
  datatype Duration = Duration(seconds: int, nanos: int)

  datatype WordInfo = WordInfo(word: string, startTime: Duration, endTime: Duration, speakerTag: int)

  /** C++ integer division and remainder round toward zero. */
  function TruncDiv(a: int, b: int): int
    requires b > 0
  {
    if a >= 0 then a / b else -((-a) / b)
  }

  function TruncMod(a: int, b: int): int
    requires b > 0
  {
    a - b * TruncDiv(a, b)
  }

  function ToDuration(millis: int): Duration
  {
    Duration(TruncDiv(millis, 1000), TruncMod(millis, 1000) * 1_000_000)
  }

  /** The milliseconds TagSpeaker recomputes from a wire duration. */
  function ToMillis(d: Duration): int
  {
    d.seconds * 1000 + TruncDiv(d.nanos, 1_000_000)
  }

  /** A freshly added message has speaker tag 0. */
  function Convert(ali: AlignedWord): WordInfo
  {
    WordInfo(ali.symbol, ToDuration(ali.startTime), ToDuration(ali.startTime + ali.duration), 0)
  }

  lemma NanosAreWholeMillis(rest: int)
    ensures TruncDiv(rest * 1_000_000, 1_000_000) == rest
  {
  }

  /** The split into seconds and nanoseconds loses nothing, for negative times too. */
  lemma DurationRoundTrip(millis: int)
    ensures ToMillis(ToDuration(millis)) == millis
  {
    NanosAreWholeMillis(TruncMod(millis, 1000));
  }

  /** The wire form is the same time, and a well-formed Duration: nanoseconds stay below one second and
      never disagree in sign with the seconds. */
  lemma DurationIsNormalised(millis: int)
    ensures var d := ToDuration(millis);
      && d.seconds * 1_000_000_000 + d.nanos == millis * 1_000_000
      && -1_000_000_000 < d.nanos < 1_000_000_000
      && (d.seconds > 0 ==> d.nanos >= 0)
      && (d.seconds < 0 ==> d.nanos <= 0)
  {
  }

  /** Conversion keeps the word and both of its times, and sets no speaker. */
  lemma ConvertKeepsTimes(ali: AlignedWord)
    ensures var info := Convert(ali);
      && info.word == ali.symbol && info.speakerTag == 0
      && ToMillis(info.startTime) == ali.startTime
      && ToMillis(info.endTime) == ali.startTime + ali.duration
  {
    DurationRoundTrip(ali.startTime);
    DurationRoundTrip(ali.startTime + ali.duration);
  }
}
