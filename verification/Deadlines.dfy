/** The numeric settings of the server and the limits of the `sample_stream` tool under them. */
module Deadlines {
  import opened Wrappers
  import opened Sanitising
  import opened Sampling
  import Redaction
  import Admission

  // An environment variable: absent or empty, not a number, or a number.
  datatype Setting = Unset | Unparsable | Given(n: int)

  function Integer(s: Setting, fallback: int, min: int, max: int): Option<int> {
    match s
    case Unset => Some(fallback)
    case Unparsable => None
    case Given(n) => if n < min || n > max then None else Some(n)
  }

  datatype Settings = Settings(requestTimeout: Setting, streamTimeout: Setting, readTimeout: Setting, writeTimeout: Setting,
                               maxConcurrent: Setting, perPrincipal: Setting, perMinute: Setting)

  // Timeouts in milliseconds.
  datatype Numbers = Numbers(request: int, stream: int, read: int, write: int, limits: Admission.Config)

  function Max(a: int, b: int): int { if a > b then a else b }

  function Min(a: int, b: int): int { if a < b then a else b }

  function Load(s: Settings): Option<Numbers> {
    var request := Integer(s.requestTimeout, 15_000, 100, 120_000);
    if request.None? then None else
    var stream := Integer(s.streamTimeout, 15_000, 1_000, 30_000);
    if stream.None? then None else
    var operation := Max(request.value, stream.value);
    var read := Integer(s.readTimeout, operation + 5_000, 1_000, 180_000);
    if read.None? then None else
    var write := Integer(s.writeTimeout, operation + 5_000, 1_000, 180_000);
    if write.None? || write.value <= stream.value then None else
    var concurrent := Integer(s.maxConcurrent, 8, 1, 1_024);
    if concurrent.None? then None else
    var perPrincipal := Integer(s.perPrincipal, 2, 1, 1_024);
    if perPrincipal.None? || perPrincipal.value > concurrent.value then None else
    var perMinute := Integer(s.perMinute, 120, 0, 100_000);
    if perMinute.None? then None else
    Some(Numbers(request.value, stream.value, read.value, write.value,
                 Admission.Config(concurrent.value, perPrincipal.value, perMinute.value)))
  }

  const DEFAULT_SAMPLE_COUNT := 10
  const MAX_SAMPLE_COUNT := 50
  const DEFAULT_SAMPLE_TIMEOUT := 10
  const MAX_SAMPLE_TIMEOUT := 15
  const MAX_SAMPLE_OUTPUT_BYTES := 0x10_0000

  datatype SampleInput = SampleInput(count: int, timeoutSeconds: int, filters: map<string, string>)

  datatype Chosen = Chosen(count: int, timeoutSeconds: int)

  // Whole seconds of the configured stream timeout (milliseconds); 15 if none is configured.
  function MaximumTimeout(stream: int): int {
    if stream > 0 then Max(1, stream / 1_000) else MAX_SAMPLE_TIMEOUT
  }

  // What one call works with; zero means omitted.
  function Choose(input: SampleInput, stream: int): Option<Chosen> {
    var count := if input.count == 0 then DEFAULT_SAMPLE_COUNT else input.count;
    var maximum := MaximumTimeout(stream);
    var timeout := if input.timeoutSeconds == 0 then Min(DEFAULT_SAMPLE_TIMEOUT, maximum) else input.timeoutSeconds;
    if count < 1 || count > MAX_SAMPLE_COUNT || timeout < 1 || timeout > maximum then None
    else Some(Chosen(count, timeout))
  }

  // The tool discards what was collected when the stream ends in an error. `filtersValid` is the
  // outcome of the filter-name checks.
  function ToolAnswer(input: SampleInput, stream: int, filtersValid: bool, secret: string, render: Json -> string,
                      lines: seq<Line>, end: StreamEnd): Option<Sample>
  {
    if Choose(input, stream).None? || !filtersValid then None
    else
      var q := Query(Choose(input, stream).value.count, MAX_SAMPLE_OUTPUT_BYTES, input.filters, secret, render);
      var s := Expected(q, lines, end);
      if s.error.NoError? then Some(s) else None
  }

  method SampleTool(input: SampleInput, stream: int, filtersValid: bool, secret: string, render: Json -> string,
                    lines: seq<Line>, end: StreamEnd)
    returns (r: Option<Sample>, deadline: int)
    ensures r == ToolAnswer(input, stream, filtersValid, secret, render, lines, end)
    ensures deadline == if Choose(input, stream).Some? && filtersValid then Choose(input, stream).value.timeoutSeconds else 0
  {
    var count := input.count;
    if count == 0 {
      count := DEFAULT_SAMPLE_COUNT;
    }
    if count < 1 || count > MAX_SAMPLE_COUNT {
      return None, 0;
    }
    var maximum := MAX_SAMPLE_TIMEOUT;
    if stream > 0 {
      maximum := stream / 1_000;
      if maximum < 1 {
        maximum := 1;
      }
    }
    var timeout := input.timeoutSeconds;
    if timeout == 0 {
      timeout := Min(DEFAULT_SAMPLE_TIMEOUT, maximum);
    }
    if timeout < 1 || timeout > maximum || !filtersValid {
      return None, 0;
    }
    var s := SampleStream(Query(count, MAX_SAMPLE_OUTPUT_BYTES, input.filters, secret, render), lines, end);
    if !s.error.NoError? {
      return None, timeout;
    }
    return Some(s), timeout;
  }

  // ------------------------------------------------------------------------------ properties

  // The configured stream timeout in whole seconds, but at least one; 15 where none is configured.
  predicate LongestTimeout(stream: int, most: int) {
    if stream <= 0 then most == 15
    else if stream < 1_000 then most == 1
    else most * 1_000 <= stream < (most + 1) * 1_000
  }

  /** An input is accepted exactly if its count is omitted or 1 to 50 and its timeout is omitted or
      positive and within the configured one. What is given is what is used; omitted, the count is 10
      and the timeout 10 or the configured one, whichever is less. */
  lemma ChoiceIsExact(input: SampleInput, stream: int, most: int)
    requires LongestTimeout(stream, most)
    ensures Choose(input, stream).Some? <==> 0 <= input.count <= 50 && 0 <= input.timeoutSeconds <= most
    ensures Choose(input, stream).Some? ==>
              && Choose(input, stream).value.count == (if input.count == 0 then 10 else input.count)
              && Choose(input, stream).value.timeoutSeconds
                 == (if input.timeoutSeconds != 0 then input.timeoutSeconds else if most < 10 then most else 10)
  {
    assert most == MaximumTimeout(stream);
  }

  /** What an accepted call of the tool answers: no more events than asked for (10 if nothing was
      said), each with the values its filters ask for and clean, out of at most one MiB of lines; if it
      is not truncated, that many events or all there are. It answers nothing exactly if the filters
      were refused or the sample ended in an error. */
  lemma ToolAnswersAreSound(input: SampleInput, stream: int, filtersValid: bool, secret: string, render: Json -> string,
                            lines: seq<Line>, end: StreamEnd)
    requires Choose(input, stream).Some?
    ensures var asked := if input.count == 0 then 10 else input.count;
            var q := Query(asked, 1024 * 1024, input.filters, secret, render);
            var answer := ToolAnswer(input, stream, filtersValid, secret, render, lines, end);
            && (answer.Some? <==> filtersValid && Expected(q, lines, end).error.NoError?)
            && (answer.Some? ==>
                  && answer.value == Expected(q, lines, end) && |answer.value.events| <= asked <= 50
                  && (answer.value.events == [] || OutputBytes(q, lines[..Longest(q, lines)]) <= 1_048_576)
                  && (!answer.value.truncated ==> |answer.value.events| == asked || answer.value.events == Kept(q, lines))
                  && forall e :: e in answer.value.events ==>
                       && ShowsAll(e, input.filters, render)
                       && (!Redaction.Leaks(secret, Redaction.MARK) ==> Clean(e, secret)))
  {
    var q := Query(Choose(input, stream).value.count, MAX_SAMPLE_OUTPUT_BYTES, input.filters, secret, render);
    hide Expected, ShowsAll, Kept, OutputBytes, Longest;
    SampleIsSound(q, lines, end);
    OtherwiseComplete(q, lines, end);
  }

  // A variable that is left out, or set to a number in the range.
  predicate InRange(s: Setting, min: int, max: int) {
    s.Unset? || (s.Given? && min <= s.n <= max)
  }

  function Value(s: Setting, fallback: int): int {
    if s.Given? then s.n else fallback
  }

  /** Settings are accepted exactly if each is left out or in its range, the write timeout exceeds the
      stream timeout and one principal gets no more than all together; and then they are what was
      set, or the fallback. */
  lemma LoadIsExact(s: Settings)
    ensures var request, stream := Value(s.requestTimeout, 15_000), Value(s.streamTimeout, 15_000);
            var operation := if request > stream then request else stream;
            var write := Value(s.writeTimeout, operation + 5_000);
            var concurrent, perPrincipal := Value(s.maxConcurrent, 8), Value(s.perPrincipal, 2);
            && (Load(s).Some? <==>
                  && InRange(s.requestTimeout, 100, 120_000) && InRange(s.streamTimeout, 1_000, 30_000)
                  && InRange(s.readTimeout, 1_000, 180_000) && InRange(s.writeTimeout, 1_000, 180_000) && write > stream
                  && InRange(s.maxConcurrent, 1, 1_024) && InRange(s.perPrincipal, 1, 1_024) && perPrincipal <= concurrent
                  && InRange(s.perMinute, 0, 100_000))
            && (Load(s).Some? ==>
                  Load(s).value == Numbers(request, stream, Value(s.readTimeout, operation + 5_000), write,
                                           Admission.Config(concurrent, perPrincipal, Value(s.perMinute, 120))))
  {
  }

  /** Every accepted sample ends before its response must be written: a whole second at least, no
      longer than the stream timeout, which is shorter than the write timeout. */
  lemma DeadlineChain(s: Settings, input: SampleInput)
    requires Load(s).Some? && Choose(input, Load(s).value.stream).Some?
    ensures var n, c := Load(s).value, Choose(input, Load(s).value.stream).value;
            && 1_000 <= c.timeoutSeconds * 1_000 <= n.stream < n.write
            && 1 <= c.count <= MAX_SAMPLE_COUNT
  {
  }

  /** Under every stream timeout, configured or not, an omitted timeout is accepted. */
  lemma OmittedTimeoutIsAccepted(stream: int, input: SampleInput)
    requires input.timeoutSeconds == 0 && 0 <= input.count <= MAX_SAMPLE_COUNT
    ensures Choose(input, stream).Some?
  {
  }

  /** Unset read and write timeouts fall inside their declared ranges and never break the rule that
      the write timeout exceeds the stream timeout, although fallbacks are not checked. */
  lemma FallbacksAreInRange(s: Settings)
    requires Integer(s.requestTimeout, 15_000, 100, 120_000).Some? && Integer(s.streamTimeout, 15_000, 1_000, 30_000).Some?
    ensures var stream := Integer(s.streamTimeout, 15_000, 1_000, 30_000).value;
            var operation := Max(Integer(s.requestTimeout, 15_000, 100, 120_000).value, stream);
            && Integer(Given(operation + 5_000), 0, 1_000, 180_000) == Some(operation + 5_000)
            && stream < operation + 5_000
    ensures Load(s).Some? && s.readTimeout.Unset? && s.writeTimeout.Unset? ==>
              var n := Load(s).value;
              1_000 <= n.read <= 180_000 && 1_000 <= n.write <= 180_000 && n.stream < n.write && n.request < n.write
  {
  }

  /** The documented 15 seconds hold exactly for stream timeouts under 16 seconds. */
  lemma FifteenSecondsExactly(stream: int)
    ensures (forall input :: Choose(input, stream).Some? ==> Choose(input, stream).value.timeoutSeconds <= MAX_SAMPLE_TIMEOUT)
            <==> stream < 16_000
  {
    if stream >= 16_000 {
      assert Choose(SampleInput(1, 16, map[]), stream) == Some(Chosen(1, 16));
    }
  }

  /** Accepted limits are installed as they are, and one principal can never be promised more than
      the whole server has. */
  lemma AcceptedLimitsAreInstalled(s: Settings)
    requires Load(s).Some?
    ensures var limits := Load(s).value.limits;
            && Admission.Effective(limits) == limits
            && 1 <= limits.perPrincipal <= limits.maxConcurrent <= 1_024 && 0 <= limits.perMinute <= 100_000
  {
  }
}
