# Verified models of the litemq server and the gears library

This project models the parts of the repository whose correctness is hardest to see by reading, and
proves what they promise. `dafny verify dfyconfig.toml` checks everything.

| file | models |
|---|---|
| `HandlerProtocol.dfy` | how any number of poller threads elect one owner of a holder, delegate events to it, close it and rearm the one-shot descriptor |
| `Cleaner.dfy`, `CleanerRuns.dfy` | epoch reclamation of finished holders |
| `ThreadGroup.dfy` | starting a group of threads behind a semaphore, with cancellation |
| `BufferPool.dfy` | the per-thread buffer pool |
| `CompositeActivation.dfy`, `CompositeRuns.dfy` | activation, rollback and shutdown of trees of active objects; agreement, order and accounting over sequences of calls |
| `Framing.dfy`, `ScatterQueue.dfy`, `Connection.dfy`, `ConnectionClosing.dfy`, `ConnectionProtocol.dfy` | the line framer and the scatter write queue of the hash server, and when its connections are closed, also in interleaved runs |
| `Calendar.dfy`, `TimeArithmetic.dfy` | seconds and broken-down time; time arithmetic |
| `TimeFormat.dfy`, `TimeParse.dfy`, `DateTimeText.dfy`, `TimeNames.dfy`, `ExtendedTimes.dfy`, `TimeText.dfy` | printing and parsing of times |
| `IntText.dfy`, `Crc.dfy` | integer text and the table CRC |
| `Sums.dfy`, `Multiples.dfy`, `Options.dfy` | shared helpers |

## How it is built

The concurrent parts (`HandlerProtocol`, `Cleaner`, `ThreadGroup`, `BufferPool`) are step systems. One
step is one atomic action of one thread: one operation on an atomic counter, one access to a plain
shared flag, one critical section, one handler call, one kernel call. A run is any list of steps in
which each is enabled, so a theorem about runs is a theorem about every interleaving of any number of
threads. Each system has an inductive invariant (`Inv`, `InvStep`, `RunInv`) and its theorems follow
from it; liveness is stated as a bound on the remaining steps together with the existence of an
enabled one. History fields count events and are written but never read. What a thread does to shared
fields inside one step is also written as a class over those fields. Step and method refer to the same
functions for the effect (`Applied`, `Finish` and `Dropped`, `Popped` and `Pushed`, `Acquired` and
`Released`), so the theorems about runs are about what the methods do.

The sequential parts are classes and methods with the loops of the source, each proved against a
specification function, and the theorems are about those functions: `Lines` and `Rest` for framing,
`Queue.Stream` and `AfterSend` for the write queue, `Text` and `Parse` for time text, `Activate`,
`Deactivate` and `Wait` for activation trees, `PushBits` for the CRC, `Denoted` for integer text,
`Canonical` and `GmToTime` for the calendar.

## What the code does that its documentation does not say

- Closing the write side clears the read flag and leaves the write flag (`DescriptorHandlerPoller.cpp:829`);
  the model does the same, and the theorems about finishing a holder rest on the closed flags only.
- The calendar has a leap day in every fourth year, so `gm_to_time` departs from the POSIX formula on
  2100-03-01; `RealCalendarUntil2100` and `AheadBySkippedDays` say by how much and exactly when.
- `%Y` prints four digits, so printing and reading back fails from the year 10000 on, and for no
  earlier time since 1970 (`FtRoundTripsUntil9999`).
- A second partial send inside one buffer repeats bytes, because the position already reached is
  forgotten (`main.cpp:347`). `SendRemovesSent` gives the exact condition for one send,
  `SendsConserve` for a list of them and `EveryLineIsAnswered` for a whole connection;
  `SecondPartialSendRepeats` is a session in which it happens.
- A peer that ends its stream while answers are waiting, and then takes them all, leaves a connection
  with one side closed and neither wanted: `write()` reports `STOP_WRITE_HANDLE` and nothing closes the
  other side. `ClosedExactlyWhen` and `StrandedExactlyWhen` say exactly when, `OneLineStrands` shows one,
  and `ClosedExactlyWhenInRuns` and `StrandedForEver` say so of interleaved runs.
- Before 1970 C's truncating division makes `time_to_gm` and `gm_to_time` disagree by a day from
  1461 days before the epoch down (`TimeToGm`), and `gm_ft` prints fields that `set_ft` never reads back
  (`PrintThenRead`).
- `int_to_str` refuses the smallest value of every signed type, although `str_to_int` accepts its text.
- `add_child_object` documents that all children are active or all are inactive; a child that is still
  being stopped is added as it is. `CallKeepsFullAgreement` shows that this is the only exception, and
  `CallBalances` that clearing an inactive composite with such a child is the only call that forgets it.
- `%e` prints a day below 10 with a space in front, which it does not read (`SpacedDayReadsBack`).
- `from_str_` does not look at what follows the part of the value that the format describes.
- When the first thread of a group cannot be created nobody takes the gate's last unit, so it stays at
  1 (`GateCounts`); the theorems are about one round from a closed gate.

## Model

| member | source | states |
|---|---|---|
| HandlerProtocol.Applied | litemq/DescriptorHandlerPoller.cpp:803-845 | closed flags are only ever added; reading is wanted afterwards exactly if the result closes nothing and starts reading, or leaves it wanted; a result that closes writing leaves the write flag, any other makes it follow start and stop |
| HandlerProtocol.DescriptorHandlerHolder.constructor | litemq/DescriptorHandlerPoller.cpp:182-198 | a new holder wants both directions and is open |
| HandlerProtocol.DescriptorHandlerHolder.ApplyStateModify | litemq/DescriptorHandlerPoller.cpp:803-845 | updates the four flags in place exactly as the step system applies a result, and reports STOP_PROCESSING |
| HandlerProtocol.ActionKeeps | litemq/DescriptorHandlerPoller.cpp:506-657 | every single action of a thread keeps the election, the rearm lock and the counter consistent, whatever the handler returns |
| HandlerProtocol.InvStep | litemq/DescriptorHandlerPoller.cpp:506-657 | every step of any thread, delivery or direct rearm keeps the whole invariant (owner, counter, closing, arming) |
| HandlerProtocol.RunInv | litemq/DescriptorHandlerPoller.cpp:476-666 | the invariant holds in every state of every interleaving of any number of threads |
| HandlerProtocol.SingleOwner | litemq/DescriptorHandlerPoller.cpp:506-511 | at most one thread is inside the pass loop or the close branch; notifications so far = completed passes + handle_in_progress |
| HandlerProtocol.NoStalledDescriptor | litemq/DescriptorHandlerPoller.cpp:652-658 | whenever an unfinished holder has no event pending or being handled it is armed, with exactly its current flags, or with the mask of a direct rearm call if that was the latest arming |
| HandlerProtocol.OneShot | litemq/DescriptorHandlerPoller.cpp:652-658 | the descriptor is one-shot: between any two deliveries some thread or direct call has armed it |
| HandlerProtocol.NotificationIsServed | litemq/DescriptorHandlerPoller.cpp:648-649 | every notification is followed by a pass that starts after it, unless the holder is closed first; until then somebody is committed to that pass, and a counter back at zero means it has started |
| HandlerProtocol.ServedAtRest | litemq/DescriptorHandlerPoller.cpp:648-649 | when everything is at rest every earlier notification has been followed by the start of a pass, or the holder is finished |
| HandlerProtocol.MutedStays | litemq/DescriptorHandlerPoller.cpp:537-611 | an open holder that wants neither direction stays open and uncleaned for ever, whatever events and direct rearm calls still come |
| HandlerProtocol.ClosedStays | litemq/DescriptorHandlerPoller.cpp:803-845 | closed flags and handling_finished are never cleared over any run |
| HandlerProtocol.ClosingIsFinal | litemq/DescriptorHandlerPoller.cpp:610-641 | once both sides are closed handle_in_progress stays positive, no pass ever starts, stopped() and the cleaner push happen at most once each, and exactly once when the holder has come to rest; from before stopped() on the descriptor is out of epoll, and nothing is delivered or armed again |
| HandlerProtocol.RearmsAfterClosing | litemq/DescriptorHandlerPoller.cpp:628-657 | the thread that closed a holder goes on to rearm it exactly when it closed it in a second or later pass |
| HandlerProtocol.FailsOnlyDeleted | litemq/DescriptorHandlerPoller.cpp:628-657 | rearming fails on no holder but one that has been taken out of epoll |
| HandlerProtocol.NotStoppedBefore | litemq/DescriptorHandlerPoller.cpp:626-636 | neither happens before both sides are closed |
| HandlerProtocol.SomeThreadRuns | litemq/DescriptorHandlerPoller.cpp:652-658 | unless everything is at rest some thread can act: the rearm lock never blocks them all |
| HandlerProtocol.ComesToRest | litemq/DescriptorHandlerPoller.cpp:506-657 | however threads are scheduled, the actions before the next delivery or direct call are bounded by a measure of the state |
| Cleaner.DescriptorHandlerCleaner.constructor | litemq/DescriptorHandlerPoller.cpp:349-354 | no bit set, every thread unreleased, both lists empty |
| Cleaner.DescriptorHandlerCleaner.Push | litemq/DescriptorHandlerPoller.cpp:356-375 | adds the holder at the end of the candidates and changes nothing else |
| Cleaner.DescriptorHandlerCleaner.FinishRound | litemq/DescriptorHandlerPoller.cpp:386-410 | the in-place sweep and the list swaps have exactly the effect the step system gives the end of a round |
| Cleaner.DescriptorHandlerCleaner.Release | litemq/DescriptorHandlerPoller.cpp:377-428 | one uninterrupted release: nothing if the bit was set, else a mark and possibly the end of the round |
| Cleaner.LastReleaser | litemq/DescriptorHandlerPoller.cpp:384-397 | whoever takes the count from 1 finds every bit set and no other thread between its mark and its decrement |
| Cleaner.InvStep | litemq/DescriptorHandlerPoller.cpp:377-428 | every step keeps: count = zero bits + threads between mark and decrement, one bit at most per thread, lists partition the pushed holders |
| CleanerRuns.CleanerConserves | litemq/DescriptorHandlerPoller.cpp:356-410 | in every reachable state the pushed holders are the dropped, the free and the candidates, each once and in order; the revert branch is never entered |
| CleanerRuns.GracePeriod | litemq/DescriptorHandlerPoller.cpp:71-77 | between a holder's push and its drop every thread has begun a release call and completed that same call (the steps are exhibited) |
| CleanerRuns.SweepHappens | litemq/DescriptorHandlerPoller.cpp:382-397 | a stretch in which every thread completes a release contains the end of a round |
| CleanerRuns.EveryHolderIsDropped | litemq/DescriptorHandlerPoller.cpp:399-410 | two such stretches in a row drop every holder pushed before them |
| ThreadGroup.Semaphore.constructor | gears/Semaphore.hpp:55-58 | starts with the given count |
| ThreadGroup.Semaphore.TryAcquire | gears/Semaphore.hpp:78-91 | takes one exactly when the gate is free, with the test and the effect of an acquire step of the system |
| ThreadGroup.Semaphore.Release | gears/Semaphore.hpp:123-133 | the effect of a release step of the system |
| ThreadGroup.EffectiveStart | gears/ThreadRunner.cpp:196-199 | zero or too many means all jobs and any other request is kept; the result is zero only for a runner without jobs |
| ThreadGroup.InvStep | gears/ThreadRunner.cpp:102-224 | every action of the main thread, of a worker, every signal and every spurious wake-up keeps the gate count, the life cycle of the threads and the absence of lost wake-ups |
| ThreadGroup.NoneBeforeAllExist | gears/ThreadRunner.cpp:201-223 | a job that has run has run once, belongs to the requested ones, and ran after all of them existed and none had failed to start |
| ThreadGroup.AllOrNone | gears/ThreadRunner.cpp:183-224 | when the round is over every requested job has run exactly once, or a creation failed and no job has run |
| ThreadGroup.GateCounts | gears/ThreadRunner.cpp:102-106 | semaphore value + threads between acquire and release is 0 before opening and 1 from then to the final acquire, which never sleeps; the gate ends closed exactly when a thread was created |
| ThreadGroup.NeverStuck | gears/ThreadRunner.cpp:151-181 | until start and wait have returned some thread can act, without relying on a spurious wake-up |
| ThreadGroup.RoundsEnd | gears/ThreadRunner.cpp:132-224 | a round without spurious wake-ups has a bounded number of steps in every schedule |
| BufferPool.ThreadBuffer.constructor | gears/ThreadBuffer.hpp:62-69 | all static buffers are free |
| BufferPool.ThreadBuffer.Take | gears/ThreadBuffer.hpp:81-88 | takes the last free buffer, as the step of the system does, or says there is none and changes nothing |
| BufferPool.ThreadBuffer.Give | gears/ThreadBuffer.hpp:115-120 | the buffer goes back on the stack, as in the step of the system |
| BufferPool.Popped | gears/ThreadBuffer.hpp:81-88 | the free part loses exactly the buffer handed out |
| BufferPool.Pushed | gears/ThreadBuffer.hpp:115-120 | the free part gains exactly the buffer given back |
| BufferPool.RoomToFree | gears/ThreadBuffer.hpp:115-120 | a static buffer coming back always finds room in the array |
| BufferPool.LiveIsEnabled | gears/ThreadBuffer.hpp:71-123 | no reachable state has a thread whose next action is undefined, in particular no heap buffer goes to the pool and no static one is deleted |
| BufferPool.InvStep | gears/ThreadBuffer.hpp:71-123 | every step of every thread keeps the partition |
| BufferPool.PoolPartition | gears/ThreadBuffer.hpp:62-123 | over any interleaving, free part + buffers held by threads = static buffers + live heap buffers, each once; the free part holds only static ones |
| BufferPool.NoSharing | gears/ThreadBuffer.hpp:71-123 | no two threads hold the same buffer |
| BufferPool.HeldIsNotFree | gears/ThreadBuffer.hpp:71-123 | no buffer that a thread holds is free, for any number of threads |
| BufferPool.HeapOnlyWhenEmpty | gears/ThreadBuffer.hpp:81-99 | a thread goes to the heap only when no static buffer is free |
| BufferPool.StaticSuffice | gears/ThreadBuffer.hpp:71-100 | over any interleaving, with no more threads than static buffers no heap buffer is ever allocated |
| BufferPool.KeepsItsBuffer | gears/ThreadBuffer.hpp:71-79 | a thread that has a buffer is given the same one by every later call, until it exits |
| BufferPool.CallsEnd | gears/ThreadBuffer.hpp:71-123 | every call and every exit ends after a bounded number of actions of its thread |
| BufferPool.StepEnds | gears/ThreadBuffer.hpp:71-123 | a call returns a buffer unless an allocation failed; an exiting thread gives its buffer back and is gone |
| BufferPool.NothingLeaks | gears/ThreadBuffer.hpp:106-123 | when all threads have exited every static buffer is free and no heap buffer is left |
| Calendar.LowerBound | gears/Time.cpp:126-130 | binary search over the month table: the first entry not below the value |
| Calendar.SplitYears | gears/Time.cpp:99-125 | the year, leap flag and day of the year through 1461-day cycles |
| Calendar.SplitDays | gears/Time.cpp:99-130 | the same with the month, and what truncation makes of days before 1970 |
| Calendar.TimeToGm | gears/Time.cpp:88-131 | from 1970 on all fields are canonical (tm_yday and tm_wday included), before that each is counted down from January 1970 or of a multiple of four years earlier; gm_to_time gives the second back exactly after -1461 days before 1970, and a day more from there down |
| Calendar.SplitIsUnique | gears/Time.cpp:88-131 | these conditions determine every field, on every second |
| Calendar.CyclesBefore | gears/Time.cpp:79-86 | before 1970 the cycle and its rest add up to the day again unless a whole cycle lies between, and then to the next day |
| Calendar.CanonicalIsUnique | gears/Time.cpp:79-86 | two canonical times with the same second are equal: with TimeToGm the conversions are mutually inverse |
| Calendar.CanonicalNotNegative | gears/Time.cpp:79-86 | canonical times are exactly those from second 0 on |
| Calendar.CompareIsTimeOrder | gears/Time.hpp:933-964 | compare on canonical times is the order of their seconds |
| Calendar.Normalize | gears/Time.hpp:703-729 | keeps the second exactly after -1461 days before 1970, gives canonical fields from 1970 on, and leaves canonical times alone |
| Calendar.AheadBySkippedDays | gears/Time.cpp:79-86 | on every Gregorian date gm_to_time exceeds the POSIX formula by one day for each century leap day that the real calendar omits |
| Calendar.TableIsSum | gears/Time.cpp:73-78 | the month table is the sum of the months' lengths, leap years included |
| Calendar.RealCalendarUntil2100 | gears/Time.cpp:73-86 | gm_to_time equals the formula of section 4.16 (Base Definitions) of IEEE Std 1003.1-2017 if and only if the date is before 2100-03-01 |
| TimeArithmetic.MicrosecondsInjective | gears/Time.hpp:1092-1097 | a time is determined by its microseconds |
| TimeArithmetic.Neg | gears/Time.hpp:817-822 | exact negation, usec kept in [0, 1000000) |
| TimeArithmetic.Abs | gears/Time.hpp:824-828 | exact absolute value |
| TimeArithmetic.Add | gears/Time.hpp:830-837 | exact sum |
| TimeArithmetic.Sub | gears/Time.hpp:845-852 | exact difference |
| TimeArithmetic.Mul | gears/Time.hpp:868-894 | exact product for every combination of signs |
| TimeArithmetic.Div | gears/Time.hpp:878-902 | quotient truncated toward zero for every combination of signs |
| TimeArithmetic.TruncatedIsTowardZero | gears/Time.hpp:896-902 | what truncation means, independently of how it is computed |
| TimeArithmetic.DivSplit | gears/Time.hpp:878-885 | dividing seconds and the carried rest separately loses nothing, and the new usec stays in range |
| TimeArithmetic.LessIsIntegerOrder | gears/Time.hpp:1361-1367 | < is the order of the microseconds |
| TimeArithmetic.Printed | gears/Time.hpp:1072-1083 | sign and magnitude denote the same value, fractional part in range, sign 0 only for zero |
| TimeArithmetic.ArithmeticInverses | gears/Time.hpp:817-902 | division undoes multiplication, subtraction addition, negation itself |
| TimeFormat.SecondsFit | gears/Time.cpp:561-569 | the seconds printed by %s always fit time_t, so int_to_str cannot refuse them |
| TimeFormat.Digits | gears/Time.cpp:202-218 | a zero-padded number has exactly its width |
| TimeFormat.TextOfConcat | gears/Time.cpp:424-650 | printing is compositional: a format put in front of another prints its own text in front of the other's and fails if either fails; a format cut inside a directive prints nothing |
| TimeParse.DigitsDenote | gears/Time.cpp:202-218 | the digits printed denote the number modulo the power of ten of the width |
| TimeParse.ReadsBack | gears/Time.cpp:156-177 | reading a printed number of the same width takes exactly its digits and gives the number, strictly or not |
| TimeParse.DirectiveReadsBack | gears/Time.cpp:259-420 | for valid fields each directive reads back what it printed, whatever follows |
| TimeParse.CopiedFields | gears/Time.cpp:259-420 | after parsing, each printed field is that of the printed time and each other one that of the object parsed into |
| TimeParse.RoundTrip | gears/Time.cpp:258-650 | for every format of %Y %m %d %H %M %S %q %% and literals and valid fields in years 1970 to 9999, from_str_ on the output of to_str_ succeeds and recovers every printed field, strictly or not |
| DateTimeText.NumberExactly | gears/Time.cpp:156-177 | a run of digits is read exactly when it is not empty and, if strict, as long as the field is wide, and then as the number it denotes |
| DateTimeText.SpelledIsRead | gears/Time.cpp:258-422 | every text that spells a date and a clock time in range is read, as the fields it spells |
| DateTimeText.ReadIsSpelled | gears/Time.cpp:258-422 | and no other text is: the six numbers of any text that is read are exhibited |
| DateTimeText.ReadExactlySpelled | gears/Time.hpp:1215-1221 | so the format of set_ft accepts a text if and only if it spells a date and a clock time, for both modes |
| TimeNames.MonthReadsBack | gears/Time.cpp:303-322 | a printed month name, full or short, is read back as its month by each of %b %B %h, whatever follows |
| TimeNames.DayReadsBack | gears/Time.cpp:283-301 | the name printed for a weekday is that weekday's; it is read and dropped |
| TimeNames.SpacedDayReadsBack | gears/Time.cpp:324-333 | %e pads with a space that it does not read: the day comes back if and only if it is at least 10 |
| TimeNames.PlainDenotes | gears/Time.cpp:524-569 | %s prints the second and %k the hour as decimals |
| TimeNames.NeverRead | gears/Time.cpp:393-396 | %k %s %z %F %T are printed only: no text is read with them |
| TimeNames.AnyCaseReads | gears/Time.cpp:303-322 | a month name in any mixture of cases is read as its month |
| TimeNames.EscapedPrints | gears/Time.cpp:424-650 | a text with its percent signs doubled is a format that prints the text |
| TimeNames.EscapedReads | gears/Time.cpp:259-420 | and that reads exactly the texts that start with it, also in the lenient mode when it has no white space |
| TimeNames.OnlyReadable | gears/Time.cpp:259-396 | a format with a directive that from_str_ does not know, or cut inside one, reads no text at all |
| TimeNames.PrintsExactlyKnown | gears/Time.cpp:424-650 | to_str_ has a text for a format if and only if it knows all its directives and none is cut |
| ExtendedTimes.NestedTexts | gears/Time.cpp:504-514 | %F and %T print the three fields with their separators |
| ExtendedTimes.FtText | gears/Time.hpp:1200-1221 | the format of gm_ft prints exactly the text of the format of set_ft |
| ExtendedTimes.ExtendedTime.constructor | gears/Time.cpp:226-256 | GMT construction gives the fields of the second, also before 1970 |
| ExtendedTimes.ExtendedTime.AddStr | gears/Time.cpp:179-191 | appends exactly when the text fits, and touches nothing outside its room |
| ExtendedTimes.ExtendedTime.FillDigits | gears/Time.cpp:206-216 | the backwards loop writes the zero-padded number |
| ExtendedTimes.ExtendedTime.AddDigits | gears/Time.cpp:202-218 | add_num<SIZE>: appends the padded number exactly when it fits |
| ExtendedTimes.ExtendedTime.AddNum | gears/Time.cpp:193-200 | add_num through int_to_str: appends the decimal exactly when int_to_str accepts it and it fits |
| ExtendedTimes.ExtendedTime.PrintSimple | gears/Time.cpp:433-636 | every directive but %F and %T prints its text, or fails for no room or an unknown directive |
| ExtendedTimes.ExtendedTime.PrintNested | gears/Time.cpp:504-514 | %F and %T print within the room that is left |
| ExtendedTimes.ExtendedTime.PrintDirective | gears/Time.cpp:433-636 | the switch as a whole appends the directive's text exactly when there is one and it fits |
| ExtendedTimes.ExtendedTime.ToStr | gears/Time.cpp:424-650 | the text of the whole format is in the buffer exactly when all directives are known and it fits; otherwise, and for an empty text, 0 |
| ExtendedTimes.ExtendedTime.Format | gears/Time.cpp:652-675 | the text when it has 1 to 256 characters, otherwise the exception |
| ExtendedTimes.ExtendedTime.TakeDigits | gears/Time.cpp:167-175 | the digit loop takes the longest run of digits up to its limit and gives its value |
| ExtendedTimes.ExtendedTime.ReadNumberAt | gears/Time.cpp:156-177 | read_number for both modes, including the field it leaves behind when it fails |
| ExtendedTimes.ExtendedTime.ReadNameAt | gears/Time.cpp:283-322 | the first weekday or month whose full or short name starts the text, without regard to case |
| ExtendedTimes.ExtendedTime.ReadFieldAt | gears/Time.cpp:324-393 | range checks and offsets of the numeric directives, with the field as a failure leaves it |
| ExtendedTimes.ExtendedTime.ReadDirectiveAt | gears/Time.cpp:273-397 | the switch of from_str_ |
| ExtendedTimes.ExtendedTime.ReadLiteralAt | gears/Time.cpp:399-418 | a literal must match, but a space skips spaces when not strict |
| ExtendedTimes.ExtendedTime.FromStr | gears/Time.cpp:258-422 | fields and error text of from_str_ are those of the specification that RoundTrip is about, on success and on failure |
| TimeText.ReadsWholeTime | gears/Time.cpp:258-650 | any format that prints date and clock gives back the second, whatever the fields were before, and the microseconds exactly when it prints them too |
| TimeText.FtRoundTripsUntil9999 | gears/Time.hpp:1200-1221 | set_ft recovers the second printed by gm_ft if and only if the year is at most 9999 |
| TimeText.FieldStaysInRange | gears/Time.cpp:258-422 | a successful parse by any format leaves every numeric field in its range: tm_mon an index of the month table, no field negative |
| TimeText.StaysLegal | gears/Time.cpp:258-422 | whatever the format and the text, a successful parse from legal fields leaves hours to 23, minutes and seconds to 59, days 1 to 31, months 1 to 12, years from 1970 and microseconds below 1000000 |
| TimeText.FtDenotes | gears/Time.hpp:1200-1205 | the six numbers in the text of gm_ft are the date and the clock time of the second, of the year its last four digits |
| TimeText.UnreadFieldStays | gears/Time.cpp:258-422 | a numeric field whose directive is not in the format is not written |
| TimeText.YearFits | gears/Time.cpp:88-131 | tm_year is an int exactly for the seconds between the two bounds of GmFt |
| TimeText.GmFt | gears/Time.hpp:1200-1205 | for every second whose tm_year is an int gm_ft succeeds and prints the fields of the second, also before 1970; from 1970 on the numbers in the text denote the second |
| TimeText.Set | gears/Time.hpp:1106-1130 | Time::set: second and microseconds of the parsed fields, or the exception; never a time before 1970, and usec stays in range |
| TimeText.SetFt | gears/Time.hpp:1215-1221 | set_ft succeeds if and only if the text spells a date and a clock time in range, strictly or not, and gives the second that its six numbers denote, with usec 0 |
| TimeText.PrintThenRead | gears/Time.hpp:1200-1221 | set_ft(gm_ft(t)), strict or not, gives t's whole second and no microseconds if and only if t lies from 1970 on and before the year 10000 of the code's calendar |
| IntText.PushPositive | gears/StringManip.hpp:227-240 | the overflow test refuses exactly non-digits and digits that leave the type; no intermediate value leaves it |
| IntText.PushNegative | gears/StringManip.hpp:209-222 | the same downwards, to the minimum |
| IntText.ReadNegative | gears/StringManip.hpp:207-224 | accepts exactly the digit strings whose negated value is not below the minimum |
| IntText.ReadPositive | gears/StringManip.hpp:225-242 | accepts exactly the digit strings whose value is not above the maximum |
| IntText.StrToInt | gears/StringManip.hpp:178-245 | accepts exactly the optionally signed decimals in range (a minus only for signed types) and returns their value |
| IntText.WriteDigits | gears/StringManip.hpp:136-141 | writes the decimal backwards |
| IntText.ReverseAt | gears/StringManip.hpp:142-146 | reverses a region in place and touches nothing else |
| IntText.ConvertUnsigned | gears/StringManip.hpp:131-148 | the decimal and a terminator |
| IntText.ConvertSigned | gears/StringManip.hpp:158-175 | sign and decimal, or nothing for the signed minimum |
| IntText.IntToStr | gears/StringManip.hpp:247-261 | the decimal and a terminator inside digits10 + 3 bytes; nothing for a shorter buffer or the signed minimum |
| IntText.TypeRanges | gears/StringManip.hpp:178-261 | minimum, maximum and digits10 of the eight types are those of their bytes |
| IntText.TextDenotes | gears/StringManip.hpp:247-261 | the text written denotes the value |
| IntText.PrintThenParse | gears/StringManip.hpp:178-261 | str_to_int inverts int_to_str for every value of the eight types but the signed minimum, which is refused |
| Crc.TableIsDivision | gears/StringManip.cpp:15-81 | each of the 256 table entries is the remainder of its index by the generator |
| Crc.MessageMoves | gears/StringManip.cpp:145-158 | bits of the message may be added to the register first and shifted out later |
| Crc.ByteIsEightBits | gears/StringManip.cpp:145-158 | one table step is eight single-bit division steps |
| Crc.TableCrcIsBitwise | gears/StringManip.cpp:145-158 | the table form equals division one bit at a time, for every seed and message |
| Crc.PushedConcat | gears/StringManip.cpp:145-158 | it composes over concatenation |
| Crc.Crc32 | gears/StringManip.cpp:145-158 | the loop computes the bitwise remainder |
| Crc.Crc32InParts | gears/StringManip.cpp:145-158 | running it over two parts is running it over the whole |
| Framing.LinesAreUnique | src/Server/main.cpp:187-208 | there is only one way to split a stream into newline-terminated lines and a rest |
| Framing.LinesAndRest | src/Server/main.cpp:187-208 | the lines with their newlines and the rest are the stream, and contain no newline |
| Framing.LinesAppend | src/Server/main.cpp:187-208 | bytes that arrive later complete the rest and nothing else |
| Framing.ChunkingIsInvisible | src/Server/main.cpp:153-230 | for every split into reads the lines delivered chunk by chunk are those of the whole stream and the rest is carried |
| Framing.CallsAreInvisible | src/Server/main.cpp:153-230 | nor does the distribution over read() calls matter, for lines or rest |
| ScatterQueue.MirrorGathers | src/Server/main.cpp:281-287 | an iovec array that mirrors the list gathers exactly the pending stream |
| ScatterQueue.MessageGathers | src/Server/main.cpp:286-287 | its first 64 entries gather the message handed to sendmsg |
| ScatterQueue.MessageIsFront | src/Server/main.cpp:286-287 | the message is the front of the pending stream |
| ScatterQueue.SendRemovesSent | src/Server/main.cpp:298-360 | a send removes exactly the sent bytes from the front of the pending stream if and only if the head was untouched or is completed by it |
| ScatterQueue.SendsNeverLose | src/Server/main.cpp:298-360 | no send loses bytes, and an unclean one makes some too many |
| ScatterQueue.SendsConserve | src/Server/main.cpp:298-360 | over any number of sends nothing is lost, repeated or reordered if and only if each finds its head untouched or completes it |
| Connection.SessionDelivers | src/Server/main.cpp:153-230 | a session delivers, read by read, the lines that each chunk completes, and carries the rest from call to call |
| Connection.SessionFrames | src/Server/main.cpp:153-230 | over any sequence of read() and write() calls the delivered lines are those of all bytes read |
| Connection.CleanSessionAnswers | src/Server/main.cpp:153-391 | as long as sends are clean, wire and pending stream together are the answers to the lines delivered |
| Connection.SurplusGrows | src/Server/main.cpp:298-360 | no call lowers the number of bytes sent or queued beyond the answers, and an unclean send raises it |
| Connection.SessionAnswers | src/Server/main.cpp:153-391 | wire and pending stream stay the answers if and only if every send is clean |
| Connection.SecondPartialSendRepeats | src/Server/main.cpp:340-351 | a session of one line and two partial sends of its answer, after which ten bytes are sent or queued for an answer of eight |
| Connection.EveryLineIsAnswered | src/Server/main.cpp:153-391 | for a whole connection: each line is delivered once and in order, and the answers to them and nothing else are sent or queued if and only if every send is clean |
| Connection.TwoLinesAnswered | src/Server/main.cpp:369-385 | two ASCII lines, however they arrive, are delivered and answered with seven zeros and a newline each if the sends are clean |
| Connection.ReadChange | src/Server/main.cpp:169-185 | which directions read() starts, stops and closes, for every way a read can end; reading is never started or stopped |
| Connection.WriteChange | src/Server/main.cpp:237-263 | the same for write() |
| Connection.HashConnectionDescriptorHandler.constructor | src/Server/main.cpp:124-139 | an empty connection |
| Connection.HashConnectionDescriptorHandler.AddWriteBuf | src/Server/main.cpp:271-296 | appends the buffer and keeps list, iovec array and message in step |
| Connection.HashConnectionDescriptorHandler.ProcessInputMessage | src/Server/main.cpp:369-385 | one answer for one message |
| Connection.HashConnectionDescriptorHandler.FindInPending | src/Server/main.cpp:190-194 | the first newline of the unprocessed region, or its end |
| Connection.HashConnectionDescriptorHandler.Reserve | src/Server/main.cpp:160-164 | room for a block, the unprocessed region kept, also when the buffer moves |
| Connection.HashConnectionDescriptorHandler.DeliverLines | src/Server/main.cpp:190-208 | delivers the complete lines in order, leaves the newline-free rest |
| Connection.HashConnectionDescriptorHandler.CopyDown | src/Server/main.cpp:215-221 | the forward copy inside the buffer does not overwrite what it still has to read |
| Connection.HashConnectionDescriptorHandler.MoveToFront | src/Server/main.cpp:215-224 | so the unprocessed region arrives at the front unchanged |
| Connection.HashConnectionDescriptorHandler.Shrink | src/Server/main.cpp:212-225 | compaction keeps the region; afterwards at most 64 KiB are processed and kept |
| Connection.HashConnectionDescriptorHandler.ReadBlock | src/Server/main.cpp:158-225 | one turn of the loop is one read of the specification |
| Connection.HashConnectionDescriptorHandler.Read | src/Server/main.cpp:153-230 | a whole read(): lines, rest, answers, result; the buffer position exceeds the rest by at most 64 KiB |
| Connection.HashConnectionDescriptorHandler.ReconfigureWriteBufs | src/Server/main.cpp:298-360 | the erase-and-patch loop leaves exactly the queue of the specification, mirrored again |
| Connection.HashConnectionDescriptorHandler.SendOnce | src/Server/main.cpp:239-254 | the bytes taken are the front of the message as the iovec array gives it |
| Connection.HashConnectionDescriptorHandler.Write | src/Server/main.cpp:232-258 | a whole write(): queue, wire and result |
| ConnectionClosing.PassIsTurn | litemq/DescriptorHandlerPoller.cpp:537-611 | the protocol's actions around read() and write() with this handler's results change the flags as a turn does |
| ConnectionClosing.OneTurn | src/Server/main.cpp:169-185 | a pass closes the connection exactly when it meets an error or an end of stream with no answer waiting, and strands it exactly when it sends the last answer after the end of the stream |
| ConnectionClosing.ClosedExactlyWhen | src/Server/main.cpp:153-258 | over every life of a connection |
| ConnectionClosing.StrandedExactlyWhen | src/Server/main.cpp:179-185 | and it is stranded (open, neither direction wanted) exactly when an earlier pass sent the last answer after the end of the stream |
| ConnectionClosing.StaysOpen | src/Server/main.cpp:179-185 | a connection whose last answer is sent after the end of the stream is never closed |
| ConnectionClosing.OneLineStrands | src/Server/main.cpp:257-257 | a concrete peer that is left so |
| ConnectionClosing.StrandedHolderStays | litemq/DescriptorHandlerPoller.cpp:610-641 | nor, once no thread is between a result and its store, is its holder ever stopped or given to the cleaner, whatever events are pending and still come |
| ConnectionProtocol.LivesStep | litemq/DescriptorHandlerPoller.cpp:506-657 | every step of any thread, delivery or direct rearm leaves flags and session those of a life of the connection, with the owner's turn under way carried along |
| ConnectionProtocol.RunLives | litemq/DescriptorHandlerPoller.cpp:537-611 | so does every interleaved run of any number of threads whose handler results come from one session |
| ConnectionProtocol.ClosedExactlyWhenInRuns | litemq/DescriptorHandlerPoller.cpp:610-641 | in such a run, whenever no turn is under way, both sides are closed if and only if the last turn ended the connection; the holder is finished only then, and at rest exactly then |
| ConnectionProtocol.StrandedForEver | litemq/DescriptorHandlerPoller.cpp:610-641 | and once it is stranded nothing that any thread does later closes, finishes or changes the connection |
| CompositeActivation.WaitDoesNotBlock | gears/ActiveObject.cpp:64-73 | in a tree that agrees, waiting for an object blocks if and only if the object is active |
| CompositeActivation.WaitRests | gears/CompositeActiveObject.hpp:232-251 | such a wait leaves the whole tree inactive, having seen the stopping leaves stop, last added first |
| CompositeActivation.DeactivateStops | gears/CompositeActiveObject.hpp:347-381 | deactivation tells every leaf to stop, last added first; leaves waited for on the way and leaves still stopping are together all leaves |
| CompositeActivation.ShutDownRests | gears/CompositeActiveObject.hpp:203-206 | stop all then wait for all: everything inactive, reverse order, each leaf joined once |
| CompositeActivation.ShutDownDoesNotBlock | gears/CompositeActiveObject.hpp:347-381 | no wait of a shutdown blocks |
| CompositeActivation.ActivateAllOrNothing | gears/CompositeActiveObject.hpp:184-222 | for any tree: every leaf started in insertion order exactly when the tree is inactive and no leaf refuses; otherwise all that was started is stopped in reverse and joined once, and the tree is as before |
| CompositeActivation.StartThenShutDown | gears/CompositeActiveObject.hpp:203-206 | the rollback undoes the start |
| CompositeActivation.AddAgrees | gears/CompositeActiveObject.hpp:253-293 | adding keeps agreement, and so does the child that was not added |
| CompositeActivation.SyncWaitsForEach | gears/CompositeActiveObject.hpp:360-368 | a synchronous composite stops its children one by one: before an earlier child is told to stop, all leaves of the later ones have been told to stop and have been waited for |
| CompositeActivation.NoSyncStops | gears/CompositeActiveObject.hpp:347-381 | without synchronous composites deactivation waits for nobody and leaves every object stopping |
| CompositeActivation.NoSyncShutDown | gears/CompositeActiveObject.hpp:203-206 | then a shutdown tells every leaf to stop before it waits for the first, both in reverse order |
| CompositeActivation.AddBrings | gears/CompositeActiveObject.hpp:262-279 | beside an active composite an inactive child is started whole or left as it was; beside another one an active child is stopped and waited for; otherwise nothing happens to it |
| CompositeActivation.AddPlaces | gears/CompositeActiveObject.hpp:281-284 | an accepted child comes behind the others, or in front of them when added to the head; a refused one is not there |
| CompositeActivation.ClearStops | gears/CompositeActiveObject.hpp:295-310 | clear_children stops and waits for all leaves of an active composite, waits for those still stopping of a stopping one, and does nothing to an inactive one |
| CompositeActivation.CompositeActiveObject.constructor | gears/CompositeActiveObject.hpp:154-159 | inactive and empty |
| CompositeActivation.CompositeActiveObject.DeactivateChild | gears/CompositeActiveObject.hpp:360-368 | one child stopped, and waited for when synchronous, without blocking |
| CompositeActivation.CompositeActiveObject.DeactivateChildren | gears/CompositeActiveObject.hpp:347-381 | the reverse iterator loop is the recursive specification |
| CompositeActivation.CompositeActiveObject.WaitChildren | gears/CompositeActiveObject.hpp:312-344 | likewise for waiting |
| CompositeActivation.CompositeActiveObject.ShutDownChildren | gears/CompositeActiveObject.hpp:203-206 | likewise for both in turn |
| CompositeActivation.CompositeActiveObject.StartChildren | gears/CompositeActiveObject.hpp:190-197 | likewise for starting up to the first failure |
| CompositeActivation.CompositeActiveObject.ActivateObject | gears/CompositeActiveObject.hpp:184-222 | activate_object with rollback gives the tree and the order of events that ActivateAllOrNothing is about |
| CompositeActivation.CompositeActiveObject.DeactivateObject | gears/ActiveObject.cpp:42-62 | only an active object is deactivated |
| CompositeActivation.CompositeActiveObject.WaitObject | gears/ActiveObject.cpp:64-82 | a stopping composite becomes inactive |
| CompositeActivation.CompositeActiveObject.AddChildObject | gears/CompositeActiveObject.hpp:253-293 | the four cases of bringing a child to the composite's side, and the refusal |
| CompositeActivation.CompositeActiveObject.ClearChildren | gears/CompositeActiveObject.hpp:295-310 | children shut down unless inactive, then dropped |
| CompositeRuns.CallKeepsAgreement | gears/CompositeActiveObject.hpp:184-310 | every call keeps: children are active exactly when the composite is |
| CompositeRuns.AgreementOverRuns | gears/CompositeActiveObject.hpp:184-310 | over every sequence of calls |
| CompositeRuns.CallKeepsFullAgreement | gears/CompositeActiveObject.hpp:253-293 | every call keeps the documented agreement (all active or all inactive) if and only if it does not add a child that is still being stopped to an inactive composite |
| CompositeRuns.StoppingChildBreaksAgreement | gears/CompositeActiveObject.hpp:272-282 | the exception at an empty composite and one leaf: the call leaves a composite that cannot be started although no leaf refuses |
| CompositeRuns.StartsAgain | gears/CompositeActiveObject.hpp:184-310 | in a run without such an addition an inactive composite can be started if and only if no leaf refuses |
| CompositeRuns.ClearForgetsStoppingChild | gears/CompositeActiveObject.hpp:295-310 | clearing such a composite then drops the leaf, and nobody waits for it |
| CompositeRuns.OrderOverRuns | gears/CompositeActiveObject.hpp:281-284 | over every sequence of calls the leaves stand in the order of the additions since the last clearing |
| CompositeRuns.StartsInOrderOfAddition | gears/CompositeActiveObject.hpp:184-222 | so an activation that succeeds starts them in that order, and the next deactivation stops them in the reverse order |
| CompositeRuns.CallBalances | gears/CompositeActiveObject.hpp:184-310 | a call forgets no leaf - started leaves run until told to stop, stopped ones are stopping until waited for - if and only if it does not clear an inactive composite with stopping leaves |
| CompositeRuns.NoLeafIsForgotten | gears/CompositeActiveObject.hpp:184-310 | over every sequence of calls without such a clearing, leaves started or added running are those running and those told to stop, and the latter are those still stopping and those waited for |

## Left out

- Memory order: plain shared flags are read and written one at a time in some order all threads agree on.
- Handler exceptions, and calls of `DescriptorHandler::rearm` after the descriptor was deleted; direct rearm calls before that are modelled.
- The `STOP_PROCESSING` result beyond being reported: the exit of a poller thread is not modelled.
- Rearming of finished holders: a holder closed on a second or later pass is still rearmed by its owner, after `reset_descriptor_handler` has dropped the handler that `epoll_rearm_fd_` asks for its descriptor (`DescriptorHandlerPoller.cpp:633,796`), and a thread that was already on its way to rearm finds the descriptor deleted. `Failed` stands for either; nothing is claimed of what follows.
- HandlerProtocol.NoStalledDescriptor: a direct rearm call may leave other flags armed, so the exact mask is claimed only when the latest arming was not one.
- CleanerRuns.GracePeriod: the last decrement, the sweep and the swap of the lists are one step, because with finer steps two overlapping sweeps make the count inconsistent.
- CleanerRuns.CleanerConserves: that the revert branch is never entered rests on the same single step.
- Cleaner.DescriptorHandlerCleaner.Release: states an uninterrupted call; interruptions are the steps of the system in the same module.
- Use of raw holder references inside one `epoll_wait` batch: `release` is also called at the end of each `handle_`, so the grace period is stated in release calls only.
- ThreadGroup.AllOrNone: one round from a gate at 0, without failures of `pthread_join`; `start_one` and the thread callbacks are not modelled.
- ThreadGroup.Semaphore.TryAcquire: the blocking `acquire` is the acquiring steps of the system (test, sleep, wake, test again); `timed_acquire` is not modelled.
- Static buffers are values in `BufferPool`; buffer contents and the thread-local storage library are not modelled. It is assumed that the value under `type_key_` is still readable when `free_buffer_` runs, and that an exiting thread does not call `get_buffer` again from the destructor of another key: `free_buffer_` does not clear `type_key_` (`ThreadBuffer.hpp:107-122`), so a static buffer taken then could be deleted.
- Trees of `CompositeActivation` are values: a child shared by two composites, or driven behind its composite's back by another thread, is not modelled; child deactivate and wait do not fail; `clear()` and the destructors are not modelled. `ActiveObjectCommonImpl` is a leaf.
- CompositeActivation.WaitRests: a wait on an active object has not returned, so it is not a completed call; the tree then is as before.
- ConnectionClosing.ClosedExactlyWhen: passes of one owner after another, with the results of this handler only; `ConnectionProtocol.ClosedExactlyWhenInRuns` carries it to every interleaving of threads, where a run is one connection and one call of `read()` or `write()` is one step.
- Buffers of the write list are values, so that list nodes do not move when the list grows is assumed, as `std::list` guarantees.
- Allocation failure and signal interruption (`EINTR`, which the code treats like any other read or write error).
- TimeArithmetic.Mul: mathematical integers; overflow of `time_t` and the int range of the multiplier are not modelled.
- Calendar.TimeToGm: a `time_t` or `tm_year` overflow is not modelled.
- TimeText.PrintThenRead: seconds whose `tm_year` is an `int`; that `tm_year + 1900`, as `%Y` adds it, leaves `int` for the last 1900 years of them is not modelled. The printing methods ask for a weekday inside the name tables when the format names it, because before 1970 the code may look up a negative index.
- Local time zones, `%z` with a local zone, `mktime` and `localtime_r`: calls into the C library.
- TimeParse.RoundTrip: `%e`, `%k`, `%s`, `%z` and the name directives are not part of the round trip: padding, variable width, or no parsing at all. `TimeNames` says of each what comes back.
- Other parts of `StringManip` (hexadecimal, trimming, splitting), `SubString`, locks, atomics, streams, logging, tracing: they would only add easy members.
- `Connection.cpp` and `MessageQueue.hpp` of litemq: unfinished, so the code does not decide what they promise.
