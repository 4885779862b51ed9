# Orbit simulator telemetry client, modelled in Dafny

The orbit simulator is an SDL program, `sdl_orbitsim.cpp`. It draws a satellite
circling the Earth. A separate producer process writes the satellite's orbital
speed and altitude to a Unix-domain socket as the text `"speed, altitude"`.
This project models the client side of that channel:

- **Connector** (`connector.dfy`): `createSocket`. It creates the socket, sets
  `O_NONBLOCK`, and connects. It retries while the server is missing
  (`ENOENT`) or refusing (`ECONNREFUSED`). It returns 1 on other failures,
  0 once its retries run out, and the descriptor on success.
- **Telemetry** (`telemetry.dfy`): the decoder inside `getSatelliteData`. It
  NUL-terminates the received bytes, splits them with `strtok(…, ",")`,
  applies `atoi` to every token and pushes every value. `Decode` is the pure
  specification. `DecodeInPlace` is the loop over the `char` buffer, down to
  the NUL bytes strtok leaves in it.
- **Fetch** (`fetch.dfy`): the poll loop of `getSatelliteData`. The outcome of
  every `poll` and `recv` is an input event. `FetchSpec` says what the call
  returns. `Fetch` is the loop over the events and the buffer.
- **Simulation** (`simulation.dfy`): the event loop of `main`:
  1. An empty parameter vector is reset to {2, 10}.
  2. New parameters are fetched.
  3. `sat_params[1]` is read and `angle += sat_params[0]`.

  The `Simulator` class holds `angle`, the parameter vector and the
  1024-byte buffer.

Behaviour of the code that a reader may not expect:

- `getSatelliteData` returns the default parameters only when `poll` times out.
  - A poll error, a receive error and a closed peer all return an empty vector.
  - The default is the vector main passes in, after its empty-vector reset.
- The decoder keeps every token: "5,120,999" gives [5, 120, 999].
  - Only entries 0 and 1 are used afterwards.
- Nothing guards a vector of fewer than two entries. `sat_params[1]` is read
  anyway, and the model reports that frame as `OutOfBounds`.
- `recv` is asked for `sizeof(buf) - 1` bytes, but `buf` is a `char*` parameter.
  - On an LP64 platform this is 7 bytes, not 1023.
  - A longer frame is truncated: "50, 1200" arrives as 50 and 120.
  - The rest of the bytes stay queued on the socket.
- When the retries run out, `createSocket` returns 0 rather than an error.
  - It makes four connects, three one-second delays, and leaves the socket open.
  - After an `fcntl` failure it returns 1 without closing the socket.
  - `main` never checks the result. After a failed connection every fetch polls
    descriptor 0 (stdin, when the retries ran out) or 1 (stdout, on any other
    failure) instead of a socket.
- `angle` is an `int`. An addition that leaves the 32-bit range is reported as
  `Overflow` instead of accumulating without bound.

## Model

| member | source | states |
|---|---|---|
| Telemetry.IndexOrEnd | sdl_orbitsim.cpp:202 | The result is the first index holding the character, or the length when it does not occur; with IndexOrEndUnique, any index with these properties is that one |
| Telemetry.CStr | sdl_orbitsim.cpp:202 | Definition: the string strtok and atoi see in the buffer, the bytes before the first NUL |
| Telemetry.CStrAppend | sdl_orbitsim.cpp:202 | Prefixing NUL-free bytes does not move the end of the C string |
| Telemetry.CStrTerminated | sdl_orbitsim.cpp:202 | After `buf[n] = '\0'` the C string ends at or before n and is the C string of the first n bytes |
| Telemetry.CStrStopsAtNul | sdl_orbitsim.cpp:202 | Bytes after a NUL never reach the decoder |
| Telemetry.Tokens | sdl_orbitsim.cpp:204-208 | Definition: the tokens successive strtok(…, ",") calls return, maximal comma-free stretches in order, empty fields dropped |
| Telemetry.TokensShape | sdl_orbitsim.cpp:204-208 | Every strtok token is non-empty, comma-free and no longer than the input |
| Telemetry.TokensOfToken | sdl_orbitsim.cpp:204-208 | A non-empty comma-free string is exactly one token |
| Telemetry.TokensConcat | sdl_orbitsim.cpp:204-208 | Splitting at a comma splits the token list: Tokens(a + "," + b) == Tokens(a) + Tokens(b) |
| Telemetry.TokensSkipRun | sdl_orbitsim.cpp:204-208 | A run of delimiters produces no token |
| Telemetry.Atoi | sdl_orbitsim.cpp:207 | Definition: atoi skips white space, reads one optional sign, then the leading decimal digits; no digit gives 0 |
| Telemetry.SkipSpace | sdl_orbitsim.cpp:207 | atoi's skipping of white space leaves a suffix that starts with a non-space |
| Telemetry.SkipSpacePrefix | sdl_orbitsim.cpp:207 | atoi's white-space skip drops exactly a white-space prefix and stops at the first non-space |
| Telemetry.DigitCount | sdl_orbitsim.cpp:207 | The counted prefix is all digits and is followed by a non-digit or the end |
| Telemetry.AtoiBound | sdl_orbitsim.cpp:207 | atoi of a token of n characters lies strictly between -10^n and 10^n |
| Telemetry.AtoiWithoutLeadingDigit | sdl_orbitsim.cpp:207 | A token with no digit right after its white space and optional sign (like "abc", "-" or " x5") converts to 0 |
| Telemetry.AtoiWithoutDigits | sdl_orbitsim.cpp:207 | A token without any digit converts to 0 |
| Telemetry.DigitCountPrefix | sdl_orbitsim.cpp:207 | atoi counts exactly the digits in front of the first non-digit |
| Telemetry.DecimalDigits | sdl_orbitsim.cpp:207 | The decimal digits of a natural number are a non-empty digit string |
| Telemetry.Numeral | sdl_orbitsim.cpp:207 | A decimal numeral is non-empty, starts with a non-space and holds only digits and '-' |
| Telemetry.DigitsRoundTrip | sdl_orbitsim.cpp:207 | The value of the decimal digits of n is n |
| Telemetry.AtoiUnsigned | sdl_orbitsim.cpp:207 | With a digit right after the white space, atoi's value is that of the leading digits |
| Telemetry.AtoiDigits | sdl_orbitsim.cpp:207 | White space, a digit string and a tail not starting with a digit convert to the digits' value |
| Telemetry.AtoiNegativeDigits | sdl_orbitsim.cpp:207 | The same after a minus sign converts to the negated value |
| Telemetry.AtoiPositiveDigits | sdl_orbitsim.cpp:207 | The same after a plus sign converts to the digits' value unchanged |
| Telemetry.AtoiNumeral | sdl_orbitsim.cpp:207 | atoi reads back any integer's numeral, after any leading white space and before any non-digit tail ("120abc" gives 120) |
| Telemetry.Decode | sdl_orbitsim.cpp:202-211 | Definition: the vector the decoding loop returns, atoi of every strtok token of the received C string, in order |
| Telemetry.AtoiAllConcat | sdl_orbitsim.cpp:206-210 | Converting a concatenation of token lists converts each part in turn |
| Telemetry.DecodeConcat | sdl_orbitsim.cpp:202-211 | Decoding splits at every comma: Decode(a + "," + b) == Decode(a) + Decode(b) |
| Telemetry.DecodeStopsAtNul | sdl_orbitsim.cpp:202-211 | Decoding stops at the first NUL received |
| Telemetry.DecodeBound | sdl_orbitsim.cpp:202-211 | Every decoded value has at most as many digits as the frame has bytes |
| Telemetry.DecodeToken | sdl_orbitsim.cpp:202-211 | A frame holding a single token decodes to the one value atoi gives it |
| Telemetry.DecodeNumeral | sdl_orbitsim.cpp:202-211 | A single (space-padded) numeral decodes to itself |
| Telemetry.DecodePaddedJoin | sdl_orbitsim.cpp:202-211 | Numerals joined by "," plus white space decode, after a leading pad, to the numbers |
| Telemetry.DecodeJoin | sdl_orbitsim.cpp:202-211 | Round trip with the producer's format: Decode(Join(ns, pad)) == ns for every list of integers and white-space pad |
| Telemetry.DecodeProducerSample | sdl_orbitsim.cpp:202-211 | The producer's frame "5, 120" decodes to [5, 120] |
| Telemetry.DecodeExtraFields | sdl_orbitsim.cpp:202-211 | "5,120,999" decodes to [5, 120, 999]: every token is kept |
| Telemetry.DecodeNonNumeric | sdl_orbitsim.cpp:202-211 | "abc,120" decodes to [0, 120] |
| Telemetry.DecodeEmptyFields | sdl_orbitsim.cpp:204-208 | Leading, trailing and doubled commas produce no entries |
| Telemetry.Marked | sdl_orbitsim.cpp:204-208 | Definition: a buffer byte after tokenising, NUL where a comma directly follows a token and unchanged elsewhere |
| Telemetry.Strtokked | sdl_orbitsim.cpp:204-208 | Definition: the whole buffer after the strtok loop, every byte as Marked gives it |
| Telemetry.SkipDelimiters | sdl_orbitsim.cpp:204-208 | strtok's scan over leading commas stops at a non-comma and drops no token |
| Telemetry.TokenEnd | sdl_orbitsim.cpp:204-208 | strtok's scan of a token stops at the next comma or NUL, and that stretch is the next token |
| Telemetry.ScanDelimiters | sdl_orbitsim.cpp:204-208 | Passing delimiters keeps the buffer in the state strtok leaves it |
| Telemetry.ScanToken | sdl_orbitsim.cpp:204-208 | Overwriting the comma after a token with NUL keeps the buffer in that state |
| Telemetry.ScanComplete | sdl_orbitsim.cpp:204-210 | At the terminator the buffer is the strtok image of the frame |
| Telemetry.CutToken | sdl_orbitsim.cpp:204-208 | Returns the next token, NUL-terminates it in the buffer and advances past it |
| Telemetry.Terminate | sdl_orbitsim.cpp:204-208 | The NUL write that ends a token keeps the scan invariant |
| Telemetry.Strtok | sdl_orbitsim.cpp:204-208 | One strtok call returns the first remaining token and the rest, or NULL when only delimiters remain |
| Telemetry.TokenLoop | sdl_orbitsim.cpp:204-210 | The loop pushes atoi of every token, in order: the result is Decode of the frame, and the buffer ends as its strtok image |
| Telemetry.DecodeInPlace | sdl_orbitsim.cpp:202-211 | After NUL-terminating at n, the returned vector is Decode of the first n bytes; the buffer's new contents are stated exactly |
| Fetch.FirstEnd | sdl_orbitsim.cpp:158-217 | The index of the first event that leaves the poll loop; every earlier one loops back |
| Fetch.EndResult | sdl_orbitsim.cpp:158-217 | Definition: what the event that leaves the loop returns: [] on poll error, recv error or peer close, the defaults on timeout, the decoded bytes on a read |
| Fetch.FetchSpec | sdl_orbitsim.cpp:150-221 | Definition: the result of getSatelliteData, EndResult of the first event that leaves the loop, or still polling when none does |
| Fetch.Delivered | sdl_orbitsim.cpp:179 | recv stores a prefix of the queued bytes of at most 7 bytes, all of them when they fit |
| Fetch.Fetch | sdl_orbitsim.cpp:150-221 | The poll loop returns FetchSpec of the events, consumes exactly the events up to the deciding one, and changes the buffer only on a data read |
| Fetch.Receive | sdl_orbitsim.cpp:179-211 | A receive stores the delivered bytes and returns Decode of exactly those bytes, whatever the buffer held before; the buffer's new contents are stated exactly |
| Fetch.FetchAfterWaits | sdl_orbitsim.cpp:175-216 | Polls without POLLIN and receives that would block are retried with no effect on the result |
| Fetch.StillPollingIff | sdl_orbitsim.cpp:158-217 | The loop stays inside exactly when no event ends it |
| Fetch.DefaultsOnlyOnTimeout | sdl_orbitsim.cpp:160-171 | A timeout returns the default parameters, and in every other case the defaults do not affect the result |
| Fetch.EmptyResult | sdl_orbitsim.cpp:161-198 | An empty vector with non-empty defaults comes only from a poll error, a recv error, a closed peer, or a read with no token |
| Telemetry.TokensCount | sdl_orbitsim.cpp:204-208 | A string of n bytes has at most (n+1)/2 strtok tokens |
| Fetch.ReadBounds | sdl_orbitsim.cpp:179-211 | One receive yields at most 4 values, each within ±10^7, so atoi cannot overflow an int there |
| Fetch.SingleRead | sdl_orbitsim.cpp:175-211 | A single read of data returns the decoding of the delivered bytes |
| Fetch.ShortFrameRoundTrip | sdl_orbitsim.cpp:179-211 | A producer frame "speed, altitude" of at most 7 bytes returns [speed, altitude] |
| Fetch.TruncatedFrame | sdl_orbitsim.cpp:179 | "50, 1200" is delivered as "50, 120" |
| Fetch.LongFrameTruncated | sdl_orbitsim.cpp:179-211 | A fetch of "50, 1200" returns [50, 120] |
| Connector.FirstDecisive | sdl_orbitsim.cpp:98-113 | The index of the first connect whose result is not ENOENT/ECONNREFUSED; all earlier ones are |
| Connector.ConnectSpec | sdl_orbitsim.cpp:68-122 | Definition: createSocket's return value, connect attempts, delays and close: 1 on a socket or fcntl failure, the descriptor on the first success, 1 and a close on a non-retryable errno, 0 after four retryable failures |
| Connector.CreateSocket | sdl_orbitsim.cpp:68-122 | The retry loop returns, counts attempts and delays and closes the socket as ConnectSpec says |
| Connector.FirstDecisivePrefix | sdl_orbitsim.cpp:93-106 | Only the first four connect results can influence the outcome |
| Connector.RetryBudget | sdl_orbitsim.cpp:93-106 | At most 4 connects, one delay between consecutive ones, at most 3000 ms of waiting |
| Connector.ConnectsIff | sdl_orbitsim.cpp:98-121 | The descriptor comes back, with the connect count and no close, exactly when a connect succeeds within four attempts after only retryable failures |
| Connector.GivesUpAfterFourRefusals | sdl_orbitsim.cpp:99-102 | Four retryable failures give 0 after 4 attempts and 3 delays, with the socket left open |
| Connector.ClosedIff | sdl_orbitsim.cpp:107-111 | The socket is closed exactly when a connect fails with another error before the retries run out |
| Connector.SetupFailure | sdl_orbitsim.cpp:70-90 | A failing socket() or fcntl returns 1 before any connect |
| Simulation.Prepare | sdl_orbitsim.cpp:271-274 | The vector handed to the fetch is never empty: an empty one becomes exactly {2, 10}, a non-empty one is kept |
| Simulation.TickSpec | sdl_orbitsim.cpp:257-280 | Definition: one frame: quit on SDL_QUIT; otherwise reset, fetch, then OutOfBounds below two entries, Overflow when angle + sat_params[0] leaves int, else the angle advances |
| Simulation.Run | sdl_orbitsim.cpp:251-283 | Definition: the frame loop over successive inputs, stopping at the first frame that does not keep running |
| Simulation.Simulator.constructor | sdl_orbitsim.cpp:226-231 | The loop starts at angle 0 with an empty vector and a 1024-byte buffer |
| Simulation.Simulator.Tick | sdl_orbitsim.cpp:257-280 | One pass of the loop body moves the state as TickSpec says |
| Simulation.Simulator.Loop | sdl_orbitsim.cpp:251-283 | The loop over a sequence of frames ends in the state and status Run gives |
| Simulation.RunConcat | sdl_orbitsim.cpp:251-283 | Running two stretches of frames is running the first, then the second if the loop goes on |
| Simulation.RunInvariant | sdl_orbitsim.cpp:271-280 | The angle stays within an int, and after a completed frame the vector has at least two entries |
| Simulation.TimeoutKeepsParams | sdl_orbitsim.cpp:271-276 | A frame whose poll times out keeps the vector, an empty one being reset to {2, 10} |
| Simulation.FirstFrameOnTimeout | sdl_orbitsim.cpp:226-280 | From the start, a timeout gives parameters {2, 10} and angle 2 |
| Simulation.FailedFetchOutOfBounds | sdl_orbitsim.cpp:276-278 | A poll error, recv error or closed peer leaves an empty vector whose entry 1 is read out of bounds |
| Simulation.SingleFieldOutOfBounds | sdl_orbitsim.cpp:276-278 | A frame with one field, such as "5", is read out of bounds too |
| Simulation.SteadyTick | sdl_orbitsim.cpp:276-280 | One whole producer frame sets the vector to [speed, altitude] and advances the angle by speed |
| Simulation.SteadyOrbit | sdl_orbitsim.cpp:251-283 | n frames of "speed, altitude", of either sign, advance the angle by n * speed and keep the loop running while both ends are within int |
| Simulation.FullOrbit | sdl_orbitsim.cpp:251-283 | 72 frames of "5, 120" take the angle from 0 to 360 |
| Simulation.RetrogradeOrbit | sdl_orbitsim.cpp:251-283 | 72 frames of "-5, 120" take the angle from 0 to -360 |

## Left out

- Real system calls are not made. `socket`, `fcntl`, `connect`, `poll` and
  `recv` are replaced by their outcomes, given as inputs. This covers errno
  values, the 10 ms poll timeout and how many bytes are queued.
- Timing is not modelled: `SDL_Delay` before each retry and `DELAY_MS` per frame.
  Only the number of delays is counted.
- Log output is left out: `std::cout`, `std::cerr`, `printf`, `perror`. This
  includes printing `buf` before it is NUL-terminated.
- `calculate_sat_coordinates` (floating-point trigonometry) is not part of this
  model. Only its read of `sat_params[1]` is kept, as the bounds check.
- `drawFilledCircle`, rendering, window creation and `captureSDLWindowID` are
  left out. They have no effect on the state the loop carries.
- The unused `orbital_speed` and `delta_time` variables of `main` are left out.
- The cleanup after the loop is not modelled: closing the socket and unlinking
  its path. Neither affects the state the loop carries.
- Connector.CreateSocket: `socket_path` is not modelled, and neither is copying
  it into `sockaddr_un`. Only the results of the calls matter.
- The model does not track what stays queued on the socket after a truncated
  `recv`. The events of the next fetch are an input.
- Fetch.Fetch: a poll loop that never ends is only modelled as `StillPolling`
  once the given events run out.
- Telemetry.Atoi: it follows atoi on values that fit in an int. Overflow is not
  modelled because it is undefined in C. Fetch.ReadBounds shows that a 7-byte
  receive cannot reach it.
- Simulation.Simulator.constructor: the call `createSocket(socket_path)` in
  `main` is not connected to the loop. The Simulator holds no descriptor.
  `main` passes the unchecked result to every fetch, so a failed connection
  polls descriptor 0 or 1. The `Frame` events stand for whatever polling that
  descriptor reports.
- Connector.CreateSocket: the connect results beyond the fourth are never
  consumed. It asks for at least four so that every attempt has an outcome.
- The producer process (`orbitsim_gui.py`) is not part of this model. Only the
  frame format it sends, `"speed, altitude"`, is used, as `Join(ns, " ")`.
