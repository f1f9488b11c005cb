# Perfkit agent: a Dafny model

Perfkit samples a running program. Sources publish a manifest that describes their data and then samples; channels start,
mute and stop the sources; subscriptions receive what the sources publish, encoded in a compact wire format; a shared
thread samples the simple sources at their frequencies; graphs keep the values in rings. Dates are kept as a Julian day
number and microseconds. This project models that behaviour and proves what holds of it in every state, run or input.

## How the project is laid out

| file | what it models |
|---|---|
| Calendar.dfy, Weeks.dfy | the closed-form calendar arithmetic of dates, against the calendar told day by day |
| DateTime.dfy | the bit-fields of a date and the operations that update them in place |
| DateFormat.dfy, DateText.dfy | the format printer and the parser that walks the same format; the parser on texts that the printer did not write |
| Timespec.dfy | seconds and nanoseconds with their carries |
| EggBuffer.dfy, Encoder.dfy | varints, zigzag, tags and blobs; manifests and samples as nested messages, and the client's decoder of manifests |
| ForeignMessage.dfy | that decoder on messages that the agent's encoder would not write |
| SourceProtocol.dfy | delivery of manifests and samples, as steps between acquisitions of the readers-writer lock |
| Lifecycle.dfy | channel states, the events queued to sources, and the worker's list that the events' handlers keep |
| Source.dfy, Subscription.dfy | sources, channels and subscriptions as objects, proved against those step machines |
| Scheduler.dfy | the shared sampling thread and its list in order of deadlines |
| Ring.dfy, UberBuffer.dfy, UberGraph.dfy | the ring buffer, its array form, and the graph's raw and scaled values |
| Options.dfy | an optional value |

Code that updates state is a class or a method with a loop, proved equal to a function of the old state; the lemmas are
about those functions. The step machines put all interleavings, or all sequences of calls, in one `Run` function, and
invariants are proved for every run. Machine arithmetic is written out where it matters: C's truncating division, the
3-bit, 22-bit and 37-bit fields of a date, 32-bit and 64-bit words of the wire format.

## Where the code differs from its documentation

- `g_date_time_get_day_of_week` is documented as 1 for Sunday; the code gives 1 for Monday (`Weeks.DayOfWeekExact`).
- `ADD_DAYS` below day 1 updates the period twice and never the day (`DateTimes.BelowDayOneIsWrong`), and `ADD_USEC`
  leaves a time of exactly one day when it goes back to a midnight (`DateTimes.UsecCanonical`, `DateTimes.AddOfDiff`).
- `timespec_add` leaves 10^9 nanoseconds uncarried when the nanoseconds sum to exactly one second (`Timespecs.AddTotal`).
  Ready tests and sorting do not suffer (`Timespecs.ReadyByTotal`), but the timed wait does: it refuses such a deadline
  before it gives up the mutex, and the worker goes around its loop with the mutex held until the deadline has passed
  (`Scheduler.SharedWorker.Turn`, `Scheduler.WaitIsRefused`). A frequency of whole seconds never leads there
  (`Scheduler.WholeSecondsAreAccepted`).
- `egg_buffer_read_data` allocates one byte less than `egg_buffer_read_string`, and ends the block with a zero all the
  same: empty data faults on the NULL that an empty allocation gives (`EggBuffers.EmptyDataFaults`), and for any other
  data the zero is written one byte past the block. The client's decoders read the lengths themselves and do not call it
  (`Encoders.RowsByReadData`).
- %I prints the hour after noon as 00 (`DateTexts.ParseThenPrint`), and the parser takes a day behind the end of its month
  for one of the next month (`DateTexts.ParsedExact`).
- %Y prints fewer than four characters below year 1000, and the parser takes four (`DateFormat.ShortYearCanBeWrong`,
  `DateFormat.ShortYearExact`).
- A string of 2^32 bytes or more is silently cut, as its length passes through a 32-bit number
  (`EggBuffers.ItemReadBack`, `Encoders.ManifestReadBack`).
- `pka_channel_add_source` is documented to start a source added to a channel that was started; the code does not
  (`Lifecycle.AddedSourceIsNotStarted`, `Lifecycle.IdleUntilChannelStarts`).
- Muting and unmuting a channel can enter a source into the sampling list twice (`Lifecycle.MutingListsTwice`).
- A subscription added twice to a source and removed once no longer tracks the source but still receives its deliveries
  (`Subscriptions.RemovedStillHeld`).
- `uber_buffer_set_size` keeps the history when growing if and only if certain slots are empty, and the newest values
  when shrinking above the position if and only if the slots beyond it happen to end up right (`Rings.GrowKeepsHistory`,
  `Rings.ShrinkKeepsNewest`).
- The week number before year 1 can be wrong, since the divisions truncate (`Weeks.WeekCanBeWrong`); exactly when is
  stated (`Weeks.WeekNumberExact`, `Weeks.WeekdayOfWeekExact`).
- The fields of a date can hold one instant in two ways, which compare as different (`DateTimes.CompareCanBeWrong`).
- The downscale timer of a graph without values sets its range to the single point zero (`UberGraphs.DownscaledToPoint`);
  the linear scale is shown not to divide by that length (`UberGraphs.LinearNeverFails`).

## Model

| member | source | states |
|---|---|---|
| Calendar.DmyOfJulian | cut-n-paste/gdatetime.c:106-118 | Converting any valid date after year -4713 to its day number and back gives the date |
| Calendar.JulianOfDmy | cut-n-paste/gdatetime.c:1062-1085 | Every day number is the day of a valid date, the one computed from it |
| Calendar.NextJulian | cut-n-paste/gdatetime.c:106-118 | The calendar's next day, over month ends, leap days and centuries, has the next day number |
| Calendar.JulianOrder | cut-n-paste/gdatetime.c:106-118 | Dates are ordered by year, month and day exactly as their day numbers are |
| Calendar.JulianInYear | cut-n-paste/gdatetime.c:130-140 | A day number is that of 1 January plus the days counted by the cumulative table |
| Calendar.NewYearStep | cut-n-paste/gdatetime.c:69-69 | Consecutive 1 Januaries lie 366 days apart in leap years by the leap macro, else 365 |
| Calendar.LeapByCentury | cut-n-paste/gdatetime.c:69-69 | The leap rule agrees with the century and year-of-century that the conversion computes |
| Weeks.WeekNumberIsIso | cut-n-paste/gdatetime.c:421-469 | From year 1 on the week is that of the date's Thursday (section 2.2.10 of ISO 8601:2004), the weekday counts from Monday, the ordinal day is the calendar's |
| Weeks.WeekNumberExact | cut-n-paste/gdatetime.c:421-469 | For all dates of the supported years: the week number is that of the date's Thursday if and only if the year is at least 1 or a condition on the Thursday's place in the year, the weekday and the leap years around it holds |
| Weeks.WeekCanBeWrong | cut-n-paste/gdatetime.c:421-469 | 15 June of year -2 is in week 25 and gets 24 |
| Weeks.WeekdayOfWeekExact | cut-n-paste/gdatetime.c:421-469 | For all dates: the weekday that comes with the week number is right if and only if the year is at least 1, or the date is from March on in a leap year, or before March after a leap year with the Thursday of its week on 4 January or later |
| Weeks.DayOfYearExact | cut-n-paste/gdatetime.c:421-469 | For all dates: the ordinal day is right if and only if the year is at least 1, or the month is January or February, or neither that year nor the one before is leap |
| Weeks.DayOfWeekExact | cut-n-paste/gdatetime.c:971-992 | For all dates: the weekday formula gives the true weekday, Monday first, if and only if its year is not negative, or is leap with a sum whose truncation does no harm |
| Weeks.GetDayOfMonth | cut-n-paste/gdatetime.c:1005-1027 | The table scan returns the day of the first month that reaches the ordinal day, and warns just when none does |
| Weeks.ScanFinds | cut-n-paste/gdatetime.c:1005-1027 | Scanning for the ordinal day of a date finds its day of the month, in leap and common years |
| Weeks.DayOfMonthExact | cut-n-paste/gdatetime.c:1005-1027 | For all dates: scan and conversion agree on the day if and only if the ordinal day is right |
| DateTimes.DateTime.AddDays | cut-n-paste/gdatetime.c:77-91 | The macro on the fields in place, with their widths and the branch below day 1 |
| DateTimes.DateTime.AddUsec | cut-n-paste/gdatetime.c:92-105 | The macro on the fields in place: truncating carry, then the days |
| DateTimes.DateTime.Add | cut-n-paste/gdatetime.c:483-496 | Adding a time span to a fresh copy leaves the date itself unchanged |
| DateTimes.AddUsecConserves | cut-n-paste/gdatetime.c:77-105 | For all fields and all n: the instant moves by exactly n if and only if no day is carried, or the day reached is at least 1 and the period field holds the carry, or the wrong branch is right by luck |
| DateTimes.UsecCanonical | cut-n-paste/gdatetime.c:92-105 | The time of day stays below one day except after a negative exact multiple of a day, where it is exactly one day |
| DateTimes.AddDaysExact | cut-n-paste/gdatetime.c:77-91 | From day 1 on period and day move by n days together, if and only if the 3-bit period holds the carry |
| DateTimes.BelowDayOneIsWrong | cut-n-paste/gdatetime.c:79-83 | Ten days before day 5 is day 5 of the next period |
| DateTimes.DiffExact | cut-n-paste/gdatetime.c:908-931 | The difference is that of the instants if and only if both are in the first period or are one instant; outside the first period it is 0 |
| DateTimes.DiffOfAdd | cut-n-paste/gdatetime.c:908-931 | The difference to a date plus t is t if and only if no day is carried or the day stays within the period |
| DateTimes.AddOfDiff | cut-n-paste/gdatetime.c:908-931 | For all days and times of period 0: adding the difference gives the other date, and the same instant, each with its exact condition; going back to a midnight gives an equal instant that compares as earlier |
| DateTimes.CompareExact | cut-n-paste/gdatetime.c:824-843 | For all values of the fields: the comparison is the order of instants if and only if the two are equal, or the one it calls greater is on a later day, or on a neighbouring day with a time that makes up for it |
| DateTimes.CompareCanBeWrong | cut-n-paste/gdatetime.c:824-843 | Day 2914800 of one period and day 105 of the next are one instant and compare as earlier |
| DateTimes.CompareIsOrder | cut-n-paste/gdatetime.c:824-843 | In particular it is the order of instants while days lie in 1 to the days of a period and times below one day |
| DateTimes.StepMonths | cut-n-paste/gdatetime.c:563-577 | The loop that steps month by month, either way, ends at the month that many months away |
| DateTimes.DateTime.AddMonths | cut-n-paste/gdatetime.c:548-592 | The new date is the floor-and-remainder closed form with the day cut to the month; null for zero months; outside the representable range the code faults on the NULL it got |
| DateTimes.MonthsLaterValid | cut-n-paste/gdatetime.c:548-592 | From year 1 on the date reached is valid, months away, on the same day or the last of the month |
| DateTimes.AddMonthsReadsBack | cut-n-paste/gdatetime.c:1422-1440 | A date is refused exactly when the count of months leaves the supported years; otherwise the stored day number fits its field and converts back to that date |
| DateTimes.MonthsUndone | cut-n-paste/gdatetime.c:548-592 | Going back the same number of months undoes the step if and only if the day was not cut |
| DateTimes.JulianFitsField | cut-n-paste/gdatetime.c:1422-1440 | Every date that the constructor accepts has a day number within the 22-bit field |
| DateFormat.Printf | cut-n-paste/gdatetime.c:1812-2009 | The printing loop yields the text of the format, or none at an unknown specifier |
| DateFormat.ParseWithFormat | cut-n-paste/gdatetime.c:1598-1754 | The parsing loop, its cursor and its range checks yield the parse of the input |
| DateFormat.ReadBack | cut-n-paste/gdatetime.c:1598-1754 | After any printed text whose specifiers suit the year, the parser stands right behind it, with each field as printed last |
| DateFormat.PrintThenParse | cut-n-paste/gdatetime.c:1598-1754 | For every format of literals and shared specifiers, with %Y from year 1000 and %d and %y from year 1 on, the printed text parses if and only if the year that comes back is at most 3268, and then to the date and time made of the carried fields and the defaults |
| DateFormat.ShortYearExact | cut-n-paste/gdatetime.c:1598-1754 | For every such format with %Y and every year 1 to 999: the year comes back if and only if it has three digits and the format uses %Y once with nothing printed after it, and then so do all carried fields; else the text does not parse, or, only for three digits, to a year of four |
| DateFormat.ShortYearCanBeWrong | cut-n-paste/gdatetime.c:1598-1754 | Year and month of May 999 print as 99905, which is rejected, and of May 300 as 30005, which parses as May 3000 |
| DateTexts.AtoiMeans | cut-n-paste/gdatetime.c:1625-1630 | A number in any text is read as white space, a sign and the longest run of digits, by its decimal value |
| DateTexts.PaddedMeans | cut-n-paste/gdatetime.c:1855-1999 | A number below 100 is printed as two digits, any other with its sign and no zero in front |
| DateTexts.DecimalMeans | cut-n-paste/gdatetime.c:1855-1999 | The printed digits spell the number, begin with zero just for 0, and are as few as the powers of ten allow |
| DateTexts.PrintsAllKnown | cut-n-paste/gdatetime.c:1812-2009 | There is a text if and only if the printer knows every specifier of the format; a percent sign at its end is none |
| DateTexts.ParsedExact | cut-n-paste/gdatetime.c:1721-1740 | For any format and any text: there is a date if and only if the fields can be read and all lie in their calendar ranges, second 60 included; it is the day and time they mean, with an overlong day counted into the next month |
| DateTexts.UnknownTakesOne | cut-n-paste/gdatetime.c:1709-1712 | An unknown specifier takes one character of any text and stores nothing |
| DateTexts.DigitsParse | cut-n-paste/gdatetime.c:1598-1754 | For any format of literals and shared specifiers and any text with full digits in every place: it parses if and only if each number lies in its range, to the day and time that the numbers mean |
| DateTexts.ParseThenPrint | cut-n-paste/gdatetime.c:1598-2009 | Then printing the result gives the same text back if and only if the year has four digits, the month has the day, the second is below 60 and the hour agrees with the half of the day |
| DateFormat.RoundTripAgrees | cut-n-paste/gdatetime.c:1812-2009 | For the same formats and years the parsed date, if there is one, has the original's month and day if and only if it is not a 29 February printed without a leap year; hour, minute, second and year come back as carried |
| DateFormat.HourBackExact | cut-n-paste/gdatetime.c:1598-1754 | The hour comes back if and only if %H is used last, or a half-day marker is present, or it is 1 to 11 |
| DateFormat.TwoDigitYearExact | cut-n-paste/gdatetime.c:1598-1754 | Two digits bring back exactly the years 1971 to 2070 |
| DateFormat.LeapDayIsFirstOfMarch | cut-n-paste/gdatetime.c:1598-1754 | 29 February of a common year becomes 1 March |
| Timespecs.AddTotal | cut-n-paste/egg-time.h:88-98 | Addition keeps total nanoseconds; it fails to normalise exactly when the nanoseconds sum to one second |
| Timespecs.SubtractTotal | cut-n-paste/egg-time.h:65-75 | Subtraction keeps total nanoseconds and normal form |
| Timespecs.ReadyByTotal | cut-n-paste/egg-time.h:41-54 | A clock reading is at or after a deadline exactly by total nanoseconds, even for a deadline that is not normal |
| Timespecs.DeadlineOrder | cut-n-paste/egg-time.h:41-54 | Deadlines compare as their totals if and only if the totals differ or the two are equal |
| Timespecs.UsecRoundTrip | cut-n-paste/egg-time.h:130-154 | Microseconds to a timespec and back is the identity on 64-bit values |
| Timespecs.UsecIsFloor | cut-n-paste/egg-time.h:130-154 | To microseconds is the total rounded down, below the 64-bit limit |
| EggBuffers.VarintLength | cut-n-paste/egg-buffer.c:144-191 | A varint takes at most n bytes if and only if the value has at most 7n bits |
| EggBuffers.VarintReadBack | cut-n-paste/egg-buffer.c:439-524 | From any state of the read loop a varint is read to its value, leaving what follows |
| EggBuffers.Uint32ReadBack | cut-n-paste/egg-buffer.c:439-472 | Every 32-bit number reads back in at most 5 bytes |
| EggBuffers.Uint64ReadBack | cut-n-paste/egg-buffer.c:486-524 | Every 64-bit number reads back in at most 10 bytes |
| EggBuffers.ForeignVarint | cut-n-paste/egg-buffer.c:439-524 | From any bytes: the varint ends with the first byte below 0x80, among the first five or ten, and is the number that the low bits spell, cut to 32 or 64 bits; otherwise the read fails behind the limit or at the end |
| EggBuffers.ForeignBlob | cut-n-paste/egg-buffer.c:555-684 | From any bytes: a blob is read if and only if a varint and as many bytes as it says are there; a tag is a varint of field and type |
| EggBuffers.ForeignFixed | cut-n-paste/egg-buffer.c:741-803 | From any bytes: 8 or 4 are taken if and only if there are so many |
| EggBuffers.ZigZagRoundTrip | cut-n-paste/egg-buffer.c:112-134 | Zigzag is 2i or -2i-1, fits the word, and is undone, for every signed value of the width |
| EggBuffers.ZigZagIsOnto | cut-n-paste/egg-buffer.c:534-545 | Every word is the zigzag of just one number, the one decoded |
| EggBuffers.TagExact | cut-n-paste/egg-buffer.c:328-336 | A tag word gives back field and type if and only if the field has at most 29 bits |
| EggBuffers.ItemReadBack | cut-n-paste/egg-buffer.c:534-803 | Each typed value reads back whatever follows, if and only if a tag's field has at most 29 bits, a string is shorter than 2^32 bytes and data is not empty; the read ends where the write did in any case, and faults just on empty data |
| EggBuffers.SequenceReadBack | cut-n-paste/egg-buffer.c:112-358 | Any sequence of typed writes is read back by the same reads, ending where the writes ended, if and only if every value fits so |
| EggBuffers.EmptyDataFaults | cut-n-paste/egg-buffer.c:699-727 | Reading back a single empty data blob faults, though the write was accepted |
| EggBuffers.EggBuffer.WriteVarint | cut-n-paste/egg-buffer.c:144-191 | The do-while loop appends exactly the varint |
| EggBuffers.EggBuffer.ReadVarint | cut-n-paste/egg-buffer.c:439-524 | The read loop gives value or failure and the position as the specification, at 5 or 10 bytes |
| EggBuffers.EggBuffer.WriteInt | cut-n-paste/egg-buffer.c:112-117 | Appends the zigzag varint of a 32-bit number |
| EggBuffers.EggBuffer.WriteInt64 | cut-n-paste/egg-buffer.c:128-134 | Appends the zigzag varint of a 64-bit number |
| EggBuffers.EggBuffer.WriteBoolean | cut-n-paste/egg-buffer.c:234-244 | Appends one byte, 1 for any true value |
| EggBuffers.EggBuffer.WriteTag | cut-n-paste/egg-buffer.c:328-336 | Appends the 32-bit tag word |
| EggBuffers.EggBuffer.WriteString | cut-n-paste/egg-buffer.c:202-223 | Appends the length and the bytes, both cut to 32 bits of length |
| EggBuffers.EggBuffer.WriteData | cut-n-paste/egg-buffer.c:348-358 | Appends length and bytes, or nothing for a direct caller whose length does not fit 32 bits |
| EggBuffers.EggBuffer.WriteFixed | cut-n-paste/egg-buffer.c:255-312 | Appends the 8 or 4 bytes of a floating-point number |
| EggBuffers.EggBuffer.FromData | cut-n-paste/egg-buffer.c:91-103 | Holds the data, cut to 32 bits of length, to be read from its start |
| EggBuffers.EggBuffer.ReadNumberAs | cut-n-paste/egg-buffer.c:534-653 | Reads a number of the given kind, or fails with the position after the bad varint |
| EggBuffers.EggBuffer.ReadTagItem | cut-n-paste/egg-buffer.c:666-684 | Reads a field and a type |
| EggBuffers.EggBuffer.ReadString | cut-n-paste/egg-buffer.c:555-595 | Reads a length and so many bytes; on failure the length stays consumed |
| EggBuffers.EggBuffer.ReadDataBytes | cut-n-paste/egg-buffer.c:699-727 | The same for data, except that it faults when the length is zero |
| EggBuffers.EggBuffer.ReadFixedBytes | cut-n-paste/egg-buffer.c:741-803 | Reads 8 or 4 bytes if there are so many |
| Encoders.EncodeManifest | perfkit-agent/pka-encoder.c:176-276 | The buffers of the encoder hold the nested message of the manifest |
| Encoders.EncodeRows | perfkit-agent/pka-encoder.c:226-256 | The row loop embeds each row's message in order, numbered from 1 |
| Encoders.EncodeRow | perfkit-agent/pka-encoder.c:226-256 | One row's message: number, type and name |
| Encoders.ManifestReadBack | perfkit-agent/pka-encoder.c:176-276 | The client's decoder gets timestamp, resolution, source and rows in order from the bytes, and ends where they end, if and only if the messages fit the arrays that hold them and the names are shorter than 2^32 bytes; as long as the messages fit, a longer name only comes back cut |
| Encoders.Decode | perfkit/pk-manifest.c:312-443 | The client's decoder, with its loop to the end of the rows and its check that all were sent, takes the buffer to the manifest and the position of the specification, or fails with it |
| Encoders.RowsByReadData | cut-n-paste/egg-buffer.c:699-727 | Taking the rows by the data read instead would fault on a manifest without rows and on no other |
| ForeignMessages.SentManifestExact | perfkit/pk-manifest.c:312-460 | A manifest from any writer, with rows in any order: the client takes it if and only if the resolution is at most 4 and the rows are numbered from 1 on, each number once; then it has all rows in the order of their numbers |
| ForeignMessages.InsertSorts | perfkit/pk-manifest.c:434-438 | Appending a row and sorting again keeps the rows and puts them in order |
| ForeignMessages.ManifestHasKeys | perfkit/pk-manifest.c:312-380 | No message is taken whose keys are not the four of a manifest, in order |
| ForeignMessages.RowHasKeys | perfkit/pk-manifest.c:387-432 | The same for the three of a row |
| ForeignMessages.SampleHasKeys | perfkit/pk-sample.c:91-160 | The same for the three of a sample |
| Encoders.RowsReadBack | perfkit/pk-manifest.c:387-439 | For any number of rows the client's loop, which sorts after each row, gets those in order whose messages fit, with names cut to a 32-bit length |
| Encoders.CutRowsExact | perfkit-agent/pka-encoder.c:226-256 | The rows with cut names are the rows if and only if all names are shorter than 2^32 bytes |
| Encoders.EncodeSamples | perfkit-agent/pka-encoder.c:78-142 | The sample loop appends source, relative time and data of each sample |
| Encoders.SamplesReadBack | perfkit-agent/pka-encoder.c:78-142 | Any batch of samples comes back in order, with source, relative time and data, each length read as a number |
| Encoders.RelativeTimeIsFloor | perfkit-agent/pka-encoder.c:44-67 | The encoded time is the elapsed time rounded down to the manifest's resolution |
| Encoders.SampleTimeSurvives | perfkit/pk-sample.c:91-132 | From end to end, for every resolution: the client decodes manifest and samples from the agent's bytes, and the time it computes by the number of the resolution that arrived is not after the sample's and before it by less than the resolution and a microsecond |
| Encoders.WireLayout | perfkit-agent/pka-encoder.c:78-276 | The bytes of manifests, rows and samples, with keys and resolution numbers written out |
| SourceProtocol.StepKeeps | perfkit-agent/pka-source.c:359-551 | Every lock-granular step keeps the protocol's invariant: sections hold the current manifest, the history is true, and each subscriber is up to date or about to be |
| SourceProtocol.RunKeeps | perfkit-agent/pka-source.c:359-551 | Hence every interleaving does |
| SourceProtocol.AllCanFinish | perfkit-agent/pka-source.c:359-551 | No interleaving is a dead end: all threads inside the source can finish; then each of its subscribers has the manifest that it holds, and any call can be made |
| SourceProtocol.WriteSections | perfkit-agent/pka-source.c:402-551 | The sections under the write lock run if and only if no read section is in progress, with what they do |
| SourceProtocol.ManifestsNeverGoBack | perfkit-agent/pka-source.c:402-439 | In every interleaving the manifests delivered are those stored, in the order of storing |
| SourceProtocol.DeliveryIsCurrent | perfkit-agent/pka-source.c:469-513 | Each delivery, by publisher or by an add, is of the manifest the source then holds |
| SourceProtocol.QuietMeansCurrent | perfkit-agent/pka-source.c:402-513 | Once nothing is being published and no add of it is pending, an attached subscriber's last manifest is the source's |
| SourceProtocol.SampleUnderLastManifest | perfkit-agent/pka-source.c:359-385 | Once its add has returned, every sample a subscriber gets is encoded against its last manifest |
| SourceProtocol.SampleReachesAll | perfkit-agent/pka-source.c:359-385 | Whatever other threads do meanwhile, delivering a sample hands it once to each place in the list of subscribers, in order, under the manifest held, and no other sample |
| SourceProtocol.RemoveDetaches | perfkit-agent/pka-source.c:527-551 | A remove detaches the subscriber if and only if it was listed at most once |
| SourceProtocol.NothingAfterRemove | perfkit-agent/pka-source.c:527-551 | From then on, in every run in which it is not added again, it receives nothing |
| SourceProtocol.RemoveFastMultiset | perfkit-agent/pka-source.c:539-541 | The fast removal takes away exactly one occurrence |
| SourceProtocol.QuietIsReached | perfkit-agent/pka-source.c:402-439 | Publishing a first manifest without subscribers reaches the quiet sources of the next two |
| SourceProtocol.SampleCanComeFirst | perfkit-agent/pka-source.c:486-510 | From any quiet source, a run in which a sample precedes the first manifest of a pending add |
| SourceProtocol.ManifestCanComeAfterRemove | perfkit-agent/pka-source.c:486-510 | From any quiet source, a run in which a pending add delivers after the remove |
| Lifecycle.StepKeeps | perfkit-agent/pka-channel.c:685-1014 | Every call keeps: sources placed in one channel, running only with it, their events in phase |
| Lifecycle.StartsAndStopsAlternate | perfkit-agent/pka-source.c:565-617 | In every run starts and stops queued to a source alternate beginning with a start, no reset falls between a start and its stop, a reset does between a stop and the next start, and the source runs just after an unstopped start |
| Lifecycle.RunningInOneChannel | perfkit-agent/pka-channel.c:537-571 | A running source is listed once, in exactly one channel, which is RUNNING or MUTED |
| Lifecycle.FailedAndOwnedForever | perfkit-agent/pka-channel.c:685-892 | In every run a FAILED channel stays so and a source keeps its channel |
| Lifecycle.StepKeepsOwner | perfkit-agent/pka-channel.c:81-100 | In one step: settings change only while the channel is READY, FAILED stays, and a source keeps its channel |
| Lifecycle.StartStarts | perfkit-agent/pka-channel.c:685-822 | A start succeeds if and only if the channel is READY or STOPPED and the process comes up; then the channel is RUNNING and all its sources run and are sent a start, with a reset before it if it was STOPPED and a mute after it if nobody subscribes; FAILED or READY otherwise, and nothing else changes |
| Lifecycle.StopStops | perfkit-agent/pka-channel.c:842-892 | A stop is refused if and only if the channel is READY; a RUNNING or MUTED channel is STOPPED then, none of its sources runs, and each that did is sent one stop; nothing else changes |
| Lifecycle.MuteMutes | perfkit-agent/pka-channel.c:910-957 | A mute succeeds if and only if the channel is RUNNING, when it is MUTED and its sources are sent a mute, or MUTED already |
| Lifecycle.UnmuteUnmutes | perfkit-agent/pka-channel.c:974-1014 | An unmute succeeds if and only if the channel is MUTED; it is RUNNING then and its sources are sent an unmute |
| Lifecycle.ConfigureSets | perfkit-agent/pka-channel.c:81-100 | A setting changes, and nothing else, if and only if the channel is READY |
| Lifecycle.StartStopStart | perfkit-agent/pka-channel.c:685-892 | From any initial world: a source added, started, stopped and started again runs, and was sent a start, a mute, a stop, a reset, a start and a mute |
| Lifecycle.AddedSourceIsNotStarted | perfkit-agent/pka-channel.c:537-571 | Adding a free source neither starts it nor queues anything, so it runs if its channel does, as documented, if and only if the channel does not run |
| Lifecycle.StartedJustByStart | perfkit-agent/pka-channel.c:685-822 | Any step starts an idle source, and queues a start to it, if and only if it starts the source's channel |
| Lifecycle.IdleUntilChannelStarts | perfkit-agent/pka-channel.c:537-571 | So a source added late stays idle, with no start queued, in every run in which its channel is not started |
| Lifecycle.StepBalanced | perfkit-agent/pka-source-simple.c:521-622 | A call keeps the worker's list due to hold the source once when it should be sampled and else not, if and only if it is not one of two disturbing calls |
| Lifecycle.ListedOnceDrained | perfkit-agent/pka-source-simple.c:485-510 | After any run without those calls, once a source's events are handled it is listed once if it runs, has a subscription and its channel is not muted, else not at all |
| Lifecycle.StoppedIsNotListed | perfkit-agent/pka-channel.c:842-892 | After any run without those calls: once a live channel is stopped and a source's events are handled, the worker's list does not hold the source |
| Lifecycle.ListedOnceWithoutMutes | perfkit-agent/pka-source.c:469-617 | In particular after every run in which no channel is muted |
| Lifecycle.RunningAloneIsReached | perfkit-agent/pka-channel.c:537-571 | From any initial world, adding a source and starting the channel reach the states of the next row |
| Lifecycle.MutingListsTwice | perfkit-agent/pka-channel.c:910-1014 | Whenever a source runs without subscription, a mute, an unmute and a first subscription list it twice |
| Sources.PkaSource.SetChannel | perfkit-agent/pka-source.c:317-342 | Accepts a channel if and only if there is none yet |
| Sources.PkaSource.DeliverManifest | perfkit-agent/pka-source.c:402-439 | The two sections are a run of the protocol that calls every subscriber in order |
| Sources.PkaSource.DeliverSample | perfkit-agent/pka-source.c:359-385 | The loop is a run of the protocol that calls every subscriber in order under the held manifest |
| Sources.PkaSource.AddSubscription | perfkit-agent/pka-source.c:469-513 | The two sections are a run of the protocol, deliver the held manifest once, and queue the unmute for a first subscription |
| Sources.PkaSource.RemoveSubscription | perfkit-agent/pka-source.c:527-551 | Search and fast removal are the protocol's step, and the mute is queued when nobody is left |
| Sources.PkaSource.NotifyStarted | perfkit-agent/pka-source.c:565-590 | Runs and queues the start, and the mute if nobody subscribes |
| Sources.PkaSource.NotifyStopped | perfkit-agent/pka-source.c:601-617 | Queues a stop just when running |
| Sources.PkaSource.Emit | perfkit-agent/pka-source.c:97-304 | Events are emitted in the order of queueing, each once |
| Sources.PkaChannel.AddSource | perfkit-agent/pka-channel.c:537-571 | Appends a source and announces it if and only if it has no channel |
| Sources.PkaChannel.Start | perfkit-agent/pka-channel.c:685-822 | State, result and what each source runs and is sent, by the state before and the spawn's outcome; a stopped channel first resets its sources |
| Sources.PkaChannel.Stop | perfkit-agent/pka-channel.c:842-892 | A live channel is stopped and each running source sent a stop; refused just when READY |
| Sources.PkaChannel.Mute | perfkit-agent/pka-channel.c:910-957 | State, result and each source's notices of a mute |
| Sources.PkaChannel.Unmute | perfkit-agent/pka-channel.c:974-1014 | State, result and each source's notices of an unmute |
| Sources.PkaChannel.Configure | perfkit-agent/pka-channel.c:381-406 | A setting changes if and only if the channel is READY |
| Subscriptions.StepExact | perfkit-agent/pka-subscription.c:250-455 | A call keeps "tracked sources hold the subscription once, others not at all" if and only if it adds nothing tracked and announces a new source at most once |
| Subscriptions.StepsMean | perfkit-agent/pka-subscription.c:170-455 | What each call, and each announcement of a new source, adds to and takes from the books; a new source is added once for each connection |
| Subscriptions.BooksCountLists | perfkit-agent/pka-subscription.c:170-455 | Before and after each of them the books count how often each source's list has the subscription |
| Subscriptions.RunExact | perfkit-agent/pka-subscription.c:182-455 | So does every run of such calls |
| Subscriptions.ChannelRoundTrip | perfkit-agent/pka-subscription.c:250-360 | Removing a channel undoes adding it if and only if neither it nor its sources were there before |
| Subscriptions.RemovedStillHeld | perfkit-agent/pka-subscription.c:426-455 | A removed source is rid of the subscription if and only if it held it at most once, though it is never tracked any more |
| Subscriptions.HeldByList | perfkit-agent/pka-source.c:469-551 | What adding and removing do to the number of times each subscription is listed |
| Subscriptions.PkaSubscription.AddSource | perfkit-agent/pka-subscription.c:375-412 | Tracks the source and adds itself to its list |
| Subscriptions.PkaSubscription.RemoveSource | perfkit-agent/pka-subscription.c:426-455 | Removes itself from the source's list and forgets the source |
| Subscriptions.PkaSubscription.AddChannel | perfkit-agent/pka-subscription.c:250-298 | Tracks all sources of the channel and adds itself to each once |
| Subscriptions.PkaSubscription.RemoveChannel | perfkit-agent/pka-subscription.c:313-360 | Forgets all sources of the channel and removes itself from each once |
| Subscriptions.PkaSubscription.SourceAdded | perfkit-agent/pka-subscription.c:183-202 | A source added to a channel is tracked and joined once for each connection to it |
| Scheduler.SortSorts | perfkit-agent/pka-source-simple.c:359-369 | The sort orders any list by deadline and keeps its members |
| Scheduler.RemoveFirstKeeps | perfkit-agent/pka-source-simple.c:485-496 | Removal takes one occurrence away and keeps order and distinctness |
| Scheduler.ScanExact | perfkit-agent/pka-source-simple.c:418-427 | In a sorted list of which the first i had passed and the next had not, exactly the first i had passed |
| Scheduler.HeadIsLeast | perfkit-agent/pka-source-simple.c:412-416 | The head of a sorted list has the least deadline in nanoseconds |
| Scheduler.RateBound | perfkit-agent/pka-source-simple.c:277-314 | k spaced invocations of a source span at least (k-1) times its least frequency |
| Scheduler.SharedWorker.RateHolds | perfkit-agent/pka-source-simple.c:277-314 | Whatever scans, additions, removals and frequency changes the worker has seen, k invocations of a source span at least (k-1) times its frequency |
| Scheduler.CallKeepsRate | perfkit-agent/pka-source-simple.c:277-314 | An invocation of a ready source keeps all invocations of each source spaced by its frequency |
| Scheduler.SharedWorker.AddToShared | perfkit-agent/pka-source-simple.c:498-510 | The list gains one occurrence and stays sorted; distinct if and only if the source was not in it |
| Scheduler.SharedWorker.RemoveFromShared | perfkit-agent/pka-source-simple.c:485-496 | The first occurrence goes, order and deadlines stay |
| Scheduler.SharedWorker.Handle | perfkit-agent/pka-source-simple.c:521-635 | The handlers change the list by just what the life cycle says |
| Scheduler.SharedWorker.Invoke | perfkit-agent/pka-source-simple.c:301-314 | The deadline becomes the reading plus the frequency, and spacing is kept; the deadline is not normal if and only if their nanoseconds sum to one second |
| Scheduler.SharedWorker.InvokeIfReady | perfkit-agent/pka-source-simple.c:381-389 | Invokes exactly when the deadline is at or before the reading in nanoseconds, and else changes nothing |
| Scheduler.SharedWorker.SetFrequency | perfkit-agent/pka-source-simple.c:648-658 | Stores any seconds and microseconds; order, deadlines and spacing stay valid if and only if they make a normal, non-negative time |
| Scheduler.SharedWorker.InvokeReady | perfkit-agent/pka-source-simple.c:418-427 | The loop stops at the first source that is not ready, having invoked those before it in turn and no other |
| Scheduler.SharedWorker.Scan | perfkit-agent/pka-source-simple.c:418-430 | Invokes in turn a prefix of the list, none if and only if the head is not due; for a distinct list it is exactly the sources whose deadlines had passed at the reading that ended the scan, each once; other deadlines stay and the list is sorted again |
| Scheduler.SharedWorker.NextWait | perfkit-agent/pka-source-simple.c:408-417 | Waits for the least deadline, or to be woken when there is no source; the wait is accepted if and only if that deadline is not left with a full second of nanoseconds |
| Scheduler.SharedWorker.Turn | perfkit-agent/pka-source-simple.c:402-431 | Once around the loop gives up the mutex if and only if the head's deadline is normal or there is no source; when the head is not due nothing changes |
| Scheduler.WholeSecondsAreAccepted | perfkit-agent/pka-source-simple.c:301-314 | A frequency of whole seconds leaves only deadlines that the wait accepts |
| Scheduler.WaitIsRefused | perfkit-agent/pka-source-simple.c:402-431 | A source with a frequency of half a second, invoked at 1.5 seconds, gets a deadline that the wait refuses and that is not due at any reading before 2 seconds |
| Rings.AppendIsNewest | cut-n-paste/uber-buffer.c:170-194 | Appending puts one value before all others and drops the oldest |
| Rings.AppendsReadBack | cut-n-paste/uber-buffer.c:170-194 | After any appends index i is the i-th most recent value, or what was there before, aged |
| Rings.FreshReadBack | cut-n-paste/uber-buffer.c:95-107 | In a fresh buffer anything older is minus infinity |
| Rings.ShrinkBelowPosKeepsNewest | cut-n-paste/uber-buffer.c:153-157 | Shrinking below the position keeps the newest values in order |
| Rings.ShrinkKeepsNewest | cut-n-paste/uber-buffer.c:145-152 | Shrinking any ring above its position keeps the newest values if and only if each slot beyond the position is left with the value that belongs there |
| Rings.ShrinkAbovePos | cut-n-paste/uber-buffer.c:145-152 | So it does when as much is cut as remains or all slots beyond the position hold one value; with distinct values only in the first case |
| Rings.ShrinkToPosBreaks | cut-n-paste/uber-buffer.c:145-152 | The ring stays valid if and only if the new size is not the position itself |
| Rings.GrowKeepsHistory | cut-n-paste/uber-buffer.c:131-144 | Growing keeps the history if and only if the exposed slots are empty; with position 0 always |
| Rings.SetSizeCommutes | cut-n-paste/uber-buffer.c:119-158 | Resizing commutes with taking images of the values |
| UberBuffers.UberBuffer.constructor | cut-n-paste/uber-buffer.c:95-107 | 64 slots of minus infinity, position 0 |
| UberBuffers.UberBuffer.ClearRange | cut-n-paste/uber-buffer.c:72-84 | The loop empties exactly the range |
| UberBuffers.UberBuffer.Append | cut-n-paste/uber-buffer.c:170-180 | The array form of appending is the ring's |
| UberBuffers.UberBuffer.GetIndex | cut-n-paste/uber-buffer.c:182-194 | The array form of indexing is the ring's |
| UberBuffers.UberBuffer.SetSize | cut-n-paste/uber-buffer.c:119-158 | Reallocation, moves and clearing in the array give the ring's resizing, valid again if and only if it does not shrink to exactly the position |
| UberBuffers.UberBuffer.Foreach | cut-n-paste/uber-buffer.h:80-97 | The two loops visit the values newest first, up to the first at which the callback stops |
| UberGraphs.LinearNeverFails | cut-n-paste/uber-graph.c:1773-1789 | Within a sound range the linear scale never divides by zero and each slot is value times pixels over range |
| UberGraphs.ExtendedContains | cut-n-paste/uber-graph.c:366-378 | The grown range is sound, holds the old one and the new value |
| UberGraphs.ExtendedExact | cut-n-paste/uber-graph.c:366-378 | The range grows only for a value outside it, to a third more than the value, on that side alone |
| UberGraphs.ImagesFillContent | cut-n-paste/uber-graph.c:1773-1789 | The images of the ends of a sound range lie the height of the content less a pixel at either edge apart, those of values within it between them |
| UberGraphs.ResizedCoherent | cut-n-paste/uber-graph.c:397-420 | Resizing both rings keeps them images of each other if and only if it does not cut them at their position, and brings no new value |
| UberGraphs.Rescale | cut-n-paste/uber-graph.c:1466-1477 | The inner loop makes every scaled slot the image of its raw slot, also those it skips |
| UberGraphs.SpanOf | cut-n-paste/uber-graph.c:459-499 | The callback over all lines finds the greatest value or zero, and whether all are zero |
| UberGraphs.DownscaledToPoint | cut-n-paste/uber-graph.c:483-510 | A range of some length comes down to a single point if and only if it begins at zero and no value is positive while some slot is empty or not zero |
| UberGraphs.UberGraph.Append | cut-n-paste/uber-graph.c:352-386 | One line gets the value and its image under the grown range |
| UberGraphs.UberGraph.UpdateScaled | cut-n-paste/uber-graph.c:1453-1479 | All lines are made images of their raw values, which stay |
| UberGraphs.UberGraph.AppendAll | cut-n-paste/uber-graph.c:594-601 | While the range changes between lines, rings stay in step and all values stay within the range; without a change all stay coherent |
| UberGraphs.UberGraph.Tick | cut-n-paste/uber-graph.c:577-618 | A complete frame gives each line its value and grows the range by all values; coherence and containment are kept though the range changes between lines |
| UberGraphs.UberGraph.Expose | cut-n-paste/uber-graph.c:1559-1621 | Drawing a frame moves the picture on by one frame, towards the next complete one, and nothing else |
| UberGraphs.UberGraph.Downscale | cut-n-paste/uber-graph.c:483-510 | The range's begin stays and its end never rises; it changes if and only if some slot is not zero and the greatest value, or zero, times 1.3334 is below it, and then to that product; coherence and containment are kept |
| UberGraphs.DownscaleSettles | cut-n-paste/uber-graph.c:483-510 | A second downscale with no value in between changes nothing |
| UberGraphs.UberGraph.SetStride | cut-n-paste/uber-graph.c:397-420 | Both rings of every line are resized; coherence and containment are kept if and only if no ring is cut exactly at its position |
| UberGraphs.UberGraph.SizeAllocate | cut-n-paste/uber-graph.c:1491-1515 | New pixels, same raw values, new images |
| UberGraphs.UberGraph.SetScale | cut-n-paste/uber-graph.c:260-274 | New scale, same raw values, new images |
| UberGraphs.UberGraph.AddLine | cut-n-paste/uber-graph.c:1661-1679 | The new line has empty rings of the stride |

## Left out

- ParseThenPrint: texts that give the year or the hour in two ways (%Y with %y, %H with %I), of which the parser takes the last.
- PrintThenParse: for years 1 to 999 with %Y see `ShortYearExact`; dates from year 10000 on do not occur, as the day number has 22 bits. Before year 1 only formats without %Y, %y and %d are read back, because the day and the remainder printed there can be wrong or negative; the other specifiers of the printer are a parameter, because the parser does not know them.
- DateTimes.DateTime.AddDays: signed overflow of the day sum is excluded by the precondition, as it is undefined in C.
- DateTimes.DateTime.AddUsec: signed overflow of the microsecond sum is excluded likewise.
- Arithmetic on bit-fields: the difference of two `usec` fields is taken at their declared 64-bit type; a compiler that computes with bit-fields at their width of 37 bits gets a negative difference 2^37 too large.
- EggBuffers.EggBuffer.ReadDataBytes: the zero written one byte past a block of data that is not empty has no counterpart, as sequences here have no memory behind them.
- SamplesReadBack: the client's decoding of a sample's data into typed fields; here the data are bytes whose length is read as a number.
- SentManifestExact: row numbers of 2^31 or more from another writer are negative for the client, and its comparison of them by difference can overflow.
- SampleUnderLastManifest: a subscriber whose add is pending is excluded, because the claim fails there (`SampleCanComeFirst`).
- UberGraph keeps its lines as ring values; that the array form of a ring is that value is proved in UberBuffer.dfy.
- Setting the y range by hand does not refresh the scaled values, so that it is not among the graph's calls; a font change that moves the content area between two allocations is not modelled either.
- Byte arrays of 2^32 bytes or more: the 32-bit length of a GByteArray cannot hold them, while a sequence here can; `Encoders.ManifestReadBack` names the manifests concerned.
- Doubles are reals or minus infinity in graphs and opaque bytes on the wire: rounding, NaN and plus infinity are not modelled.
- Time zones, the system clock and calendar functions other than those listed; the monotonic clock is an arbitrary reading not before the last one.
- Several publishing threads of one source, and handlers of a subscription that are not installed beforehand.
- Atomicity of a channel's start against a concurrent stop: channel calls are single steps.
- Spawning and killing of the process: the outcome of preparing and spawning is an input, and pid, target, arguments and environment are one settings value.
- Failed authorisation, which returns before anything is touched.
- The dedicated-thread mode of simple sources, and what sampling and spawn callbacks do.
- Muting of a subscription, which no delivery looks at.
- The event queue of the main loop is one queue for each source; the order of events of different sources is arbitrary.
- The manager's registry, D-Bus and the listener, plugins, configuration, logging, command line, drawing and widgets.
- Reference counts, memory and GObject types.
