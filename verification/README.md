# Verified model of the ANX HTTP server's algorithms

The server is a small nginx-like program in C with Rust modules. This project models its self-contained algorithms in
Dafny and proves what they are for. Code that updates state in place is modelled as methods on classes and arrays; each
method is proved against a function on values, and the properties are proved about that function.

| files | what they model |
|---|---|
| SmoothWrr, WeightedDraw, CyclicScan, LoadBalancer | backend selection: smooth weighted round robin, weighted random, round robin and IP hash over the linked server list |
| ConfigLexer, ConfigSyntax, ConfigText, ConfigRoundTrip, ConfigReader, Routing | the configuration front end: character state machine, recursive descent over the token array, longest-prefix routing |
| NginxConfig, NginxText, NginxNormal, NginxRoundTrip, NginxStable, NginxMeaning, NginxCompat | the nginx-style printer and line-based parser, what a text means, and what survives going through both |
| Base64, Swar, BufferFind, BlockMove | the word-at-a-time and block routines, each refining a plain definition |
| LruCache, ResponseCache | the Rust response cache: map, recency list and byte counter |
| TokenBucket | the bandwidth controller |
| Chunked | the chunked sender, against a receiver written from section 7.1 of RFC 9112 |
| HealthHistory | the health-check ring buffer |
| Arith, Text, Options | arithmetic facts, bytes, words and decimal numbers, a value that may be missing |

`dafny verify dfyconfig.toml` checks the whole project.

Conventions. Integers are unbounded unless a width is written out (32-bit hashing, 64-bit words, 24-bit Base64 groups).
Text of the C parts is made of bytes: a file is a sequence of characters below 256, and a C string has no NUL in it. The
clock and `rand()` are parameters; `now` is one value during a selection. `neon` says whether the CPU feature test
succeeds, so a contract that does not mention it holds on both paths. Memory blocks are loaded into locals before they
are stored, as the assembly does. A loop that may not end is described by its single turns: `Hangs` is proved to mean
that it is still going after every number of them.

Where the code does less than its name promises, the code is modelled as it is, a concrete case shows it, and the exact
condition is proved:

- a cyclic scan with two or more servers and none available never ends (`CyclicScan.StopsExactlyWhen`,
  `CyclicScan.NeverStopsWithNoneUp`), and after a wrap the round-robin cursor skips one server
  (`CyclicScan.ResumesAtSuccessorExactlyWhen`, `CyclicScan.WrapSkipsOne`);
- a configuration directive is read back only if its value fits the buffer
  (`ConfigRoundTrip.ReadBackExactlyWhenItFits`, `ConfigRoundTrip.LongValueIsLost`), and the buffer is overrun when a
  token follows one that fills it (`ConfigRoundTrip.DirectiveFate`, `ConfigRoundTrip.ValueCanBeOverrun`);
- where a block breaks off, its loop can go on for ever or read past the tokens (`ConfigRoundTrip.LocationFate` and the
  other `...Fate` lemmas, `ConfigRoundTrip.LoneKeyHangs`), and a location with a modifier, as in
  `configs/anx.conf.example`, leads to a NULL pointer (`ConfigRoundTrip.ModifierIsUndefined`), and so does a server
  block without its brace, while an http block without one is tried for ever (`ConfigRoundTrip.MissingBraces`); a last
  word that nothing follows is lost (`ConfigLexer.TextEnds`);
- printing and parsing an nginx-style configuration is a normalisation (`NginxStable.UnchangedExactlyWhen`,
  `NginxStable.PortIsAdded`), and a second round can change it again (`NginxStable.SecondRound`,
  `NginxStable.SecondRoundCanDiffer`); `error_log` is printed inside the server block, where the parser ignores it;
- the Base64 decoder takes bytes from 224 on for 'A', because its table lists only 224 of its 256 entries
  (`Base64.RefusesExactlyWhen`, `Base64.AcceptsForeignBytes`);
- putting over a stored key lists the key twice, and a later eviction can then go on for ever
  (`LruCache.HangsExactlyWhen`, `LruCache.OverwritingCanHang`);
- `asm_opt_strrchr` differs from the C library for the terminator and for arguments outside a byte
  (`Swar.StrrchrAgreesExactlyWhen`, `Swar.StrrchrMissesTerminator`), and `asm_opt_buffer_find` does not always find the
  first occurrence (`BufferFind.FindsFirstExactlyWhen`, `BufferFind.SweepCanMissTheFirst`);
- waiting exactly the computed delay is enough only if the rate divides what is missing (`TokenBucket.DelayIsExact`,
  `TokenBucket.DelayCanBeShort`);
- a successful chunk send does not mean the chunk went out whole (`Chunked.IntactExactlyWhen`, `Chunked.OkExactlyWhen`,
  `Chunked.ShortSendSucceeds`).

## Model

| member | source | states |
|---|---|---|
| SmoothWrr.BestIsFirstBest | src/proxy/load_balancer.c:473-487 | the server remembered by the walk is the first available one with the greatest current weight, and there is none exactly when no server is available |
| SmoothWrr.RoundConserves | src/proxy/load_balancer.c:465-496 | one selection, under any availability, leaves the sum of all current weights as it was |
| SmoothWrr.SumConserved | src/proxy/load_balancer.c:465-496 | the same over every run, availability changing freely from call to call |
| SmoothWrr.StaysUnimpaired | src/proxy/load_balancer.c:475-482 | over every run configured weights never change and the effective weight stays equal to the configured one |
| SmoothWrr.RoundEffect | src/proxy/load_balancer.c:470-496 | what one selection does to one server: if available it earns the effective weight it had, and if chosen it pays the effective weights that all available ones had |
| SmoothWrr.Recovers | src/proxy/load_balancer.c:475-482 | over every run an effective weight below the configured one has recovered by 1 for every selection in which its server was available, up to the configured one |
| SmoothWrr.Ledger | src/proxy/load_balancer.c:465-496 | from a fresh group with any fixed set of servers available, W being their total weight: after k selections an available server i holds k*w_i - n_i*W, where n_i counts its selections; the others hold nothing |
| SmoothWrr.Untouched | src/proxy/load_balancer.c:472-488 | a server that is not available is neither chosen nor changed |
| SmoothWrr.Bounded | src/proxy/load_balancer.c:465-496 | on those runs, with a servers available, every current weight stays within [-(W-1), (a-1)(W-1)] |
| SmoothWrr.NeverAhead | src/proxy/load_balancer.c:465-496 | after k selections no server was chosen more than ceil(k*w/W) times, nor fewer than (k*w - (a-1)(W-1))/W times; w is 0 for a server that is not available |
| SmoothWrr.ExactlyFair | src/proxy/load_balancer.c:465-496 | after every m*W selections each available server was chosen exactly m*weight times, each other never, and the whole group is as it began |
| SmoothWrr.Periodic | src/proxy/load_balancer.c:465-496 | states and choices repeat with period W |
| LoadBalancer.Server.constructor | src/proxy/load_balancer.c:280-307 | a new server: given weight, effective weight equal to it, no debt, no failures, the limits 3, 30 and 1000 |
| LoadBalancer.Server.IsAvailable | src/proxy/load_balancer.c:333-358 | the answer for a given time, and the one side effect: an expired series of failures is forgiven |
| LoadBalancer.OutIsLeftAlone | src/proxy/load_balancer.c:333-358 | a server that is down, full, or failing with its timeout still running is not available, and no strategy chooses or changes it |
| LoadBalancer.BackIsForgiven | src/proxy/load_balancer.c:347-354 | from the end of the timeout on it is available, unless down or full, and weighted round robin leaves it without failures |
| LoadBalancer.FailingIsLeftAlone | src/proxy/load_balancer.c:465-496 | over every run of weighted round robin calls made before its timeout ends a failing server is neither returned nor changed |
| LoadBalancer.FailingComesBack | src/proxy/load_balancer.c:465-496 | the first call at or after the end of the timeout finds it available and leaves it healthy, and so do all later ones |
| LoadBalancer.FailingMissesTurns | src/proxy/load_balancer.c:431-463 | the same waiting for runs of round robin calls |
| LoadBalancer.FailuresAreForgottenInTime | src/proxy/load_balancer.c:347-354 | a concrete case: 3 failures of 3, the last at time 100, timeout 30: out at 129, back at 130 |
| LoadBalancer.SteadyWindow | src/proxy/load_balancer.c:333-358 | exactly the servers available at the beginning of a time are available throughout it if and only if no failing one recovers within |
| LoadBalancer.Group.AddServer | src/proxy/load_balancer.c:184-221 | refused exactly for a bad port, a bad weight or an address already present; otherwise a fresh server becomes the new head and nothing else changes |
| LoadBalancer.PrependedPeers | src/proxy/load_balancer.c:203-216 | a group that only ever grew is fresh, healthy and has the sum of the weights: where the fairness results start from |
| LoadBalancer.Group.Visit | src/proxy/load_balancer.c:472-488 | one turn of the walk keeps the group, the total and the remembered server in step with the specification |
| LoadBalancer.Group.Tally | src/proxy/load_balancer.c:470-488 | the whole walk over the linked list: everyone available earned, the first of the richest is remembered, the total is theirs |
| LoadBalancer.Group.WeightedRoundRobin | src/proxy/load_balancer.c:465-496 | the call on the linked list performs exactly one `Round` on the peers, asks everyone about availability, and returns the winner or NULL |
| LoadBalancer.RunIsRounds | src/proxy/load_balancer.c:465-496 | a run of calls during a time in which nobody recovers is a run of the peers with the same ones available; selections agree |
| LoadBalancer.CallsAreFair | src/proxy/load_balancer.c:465-496 | the fairness results for the calls themselves, over any time in which no failing server recovers, W being the weight of the available ones: at most ceil(k*w/W) of k calls, exactly m*weight of m*W, none for the others, peers back at the start |
| LoadBalancer.HealthyIsUp | src/proxy/load_balancer.c:465-496 | with every server healthy this is any time, W is the sum of all weights and every share the configured weight |
| WeightedDraw.ExactShare | src/proxy/load_balancer.c:614-630 | exactly `weight` draws select an available server, and no draw an unavailable one |
| WeightedDraw.Partition | src/proxy/load_balancer.c:603-632 | the draws below the total are partitioned among the servers: each selects one and only one |
| WeightedDraw.TotalPositiveExactlyWhen | src/proxy/load_balancer.c:603-612 | the total is positive exactly when some server is available |
| LoadBalancer.Group.SumAvailable | src/proxy/load_balancer.c:603-610 | the first walk sums the weights of the available servers |
| LoadBalancer.Group.WeightedRandom | src/proxy/load_balancer.c:598-632 | NULL exactly when the total is 0; otherwise the server that draw modulo total lands on |
| CyclicScan.StopsExactlyWhen | src/proxy/load_balancer.c:440-460 | some step is the last if and only if some server is available or the group has a single server |
| CyclicScan.NeverStopsWithNoneUp | src/proxy/load_balancer.c:440-460 | a concrete case: two servers, none available, no step is the last |
| CyclicScan.ResumesAtSuccessorExactlyWhen | src/proxy/load_balancer.c:446-456 | the cursor left behind names the successor of the chosen server if and only if some server from the cursor to the end of the list was available; otherwise it is one further |
| CyclicScan.WrapSkipsOne | src/proxy/load_balancer.c:446-456 | a concrete case: from cursor 1 with only server 0 available, server 0 is chosen and the cursor becomes 2 |
| LoadBalancer.Group.Scan | src/proxy/load_balancer.c:440-460 | the loop on the linked list returns the first available server in cyclic order, asks only that one for forgiveness, and ends with the stated counter |
| LoadBalancer.Group.RoundRobin | src/proxy/load_balancer.c:431-463 | the first available server from the cursor on; servers and cursor, which stays in range, become `Turned` |
| LoadBalancer.CallsRotate | src/proxy/load_balancer.c:431-463 | on a run of calls on a fresh healthy group, at any times, call k returns server k mod n and leaves the cursor at (k+1) mod n |
| LoadBalancer.Group.IpHash | src/proxy/load_balancer.c:521-556 | first available server in cyclic order from hash(ip) mod n; the round-robin cursor is untouched |
| LoadBalancer.HashString | src/proxy/load_balancer.c:1068-1079 | 32-bit wrap-around at every step equals the exact polynomial 5381*33^n + ... reduced once modulo 2^32 |
| LoadBalancer.Djb2IsPolynomial | src/proxy/load_balancer.c:1068-1079 | that polynomial, written from its other end: 5381*33^n and the characters as digits to base 33 |
| ConfigLexer.LexRender | src/core/config.c:78-128 | for every layout of the tokens (white space and # comments between them, in any amount) the tokenizer gives back exactly the tokens |
| ConfigLexer.LexRenderThen | src/core/config.c:78-128 | and it goes on with whatever follows |
| ConfigLexer.TextEnds | src/core/config.c:78-128 | a last word that nothing follows, an unfinished comment, and everything after a NUL give no token |
| ConfigLexer.LexGivesTokens | src/core/config.c:78-128 | whatever the text, every token read from it is a mark or a non-empty word that does not begin with # |
| ConfigLexer.Tokens.Tokenize | src/core/config.c:78-128 | the character loop, which ends at the first NUL, terminates in spite of stepping back and fills the array with the first 2048 tokens |
| ConfigSyntax.HangsExactlyWhen | src/core/config.c:304-309 | a block loop counts as hanging if and only if it is still going after every number of turns, or comes to a turn inside which another loop hangs |
| ConfigSyntax.DoneAtItsEnd | src/core/config.c:304-309 | and as done only with the value and the tokens at which some turn ends it |
| ConfigSyntax.LocationHangsExactlyWhen | src/core/config.c:304-311 | the same for the loop of a location, which has no loop inside |
| ConfigSyntax.ServerHangsExactlyWhen | src/core/config.c:332-346 | the same for a server block |
| ConfigSyntax.UpstreamHangsExactlyWhen | src/core/config.c:158-231 | the same for an upstream block, which has no such loop inside |
| ConfigSyntax.HttpHangsExactlyWhen | src/core/config.c:353-394 | the same for the http section |
| ConfigSyntax.TopHangsExactlyWhen | src/core/config.c:468-476 | the same for the top level |
| ConfigRoundTrip.DirectiveBack | src/core/config.c:246-281 | a printed directive in front of anything is read back, and exactly its tokens are consumed |
| ConfigRoundTrip.ServerItemsBack | src/core/config.c:319-351 | the items of a server block, directives and locations in any order, in front of anything: directives in order, locations reversed |
| ConfigRoundTrip.ParamsBack | src/core/config.c:189-208 | the parameters of an upstream server, any of them in any order and repeated or not: of each kind the last one counts, the others keep their defaults |
| ConfigRoundTrip.AtoIOf | src/core/config.c:176-208 | numbers are read after white space and a sign, up to the first character that is no digit; what is no number is 0 |
| ConfigRoundTrip.UpstreamItemsBack | src/core/config.c:130-244 | the items of an upstream block in any order: directives in order, servers reversed |
| ConfigRoundTrip.HttpItemsBack | src/core/config.c:353-394 | the items of the http section in any order: directives in order, server and upstream lists reversed |
| ConfigRoundTrip.FileBack | src/core/config.c:468-476 | the sections of a file: tokens outside are skipped, the last http section stays |
| ConfigRoundTrip.RoundTrip | src/core/config.c:78-394 | any well-formed file that fits the token array (block items in any order, any layout), tokenized and parsed, gives the tree it describes with its linked lists reversed |
| ConfigRoundTrip.DirectiveFate | src/core/config.c:246-281 | what `parse_directive` does with any tokens: the 1024-byte value buffer is overrun if and only if all tokens of the value but the last, joined, have 1023 bytes or more; otherwise the value is the first 1023 bytes of all of them joined, and the tokens up to the semicolon are consumed |
| ConfigRoundTrip.ValueCanBeOverrun | src/core/config.c:258-267 | a concrete case: 1023 letters and one more word overrun it |
| ConfigRoundTrip.ReadBackExactlyWhenItFits | src/core/config.c:246-281 | a printed directive of words is read back if and only if its value has at most 1023 bytes |
| ConfigRoundTrip.LongValueIsLost | src/core/config.c:246-281 | a concrete case: a value of 1024 letters is truncated |
| ConfigRoundTrip.LocationFate | src/core/config.c:283-317 | a location body of well-formed directives that breaks off: it ends if and only if its brace is there, hangs if and only if a single other token is left, and reads past the tokens if and only if nothing is left |
| ConfigRoundTrip.ServerFate | src/core/config.c:319-351 | the same for a server block; a lone `location` is read past too |
| ConfigRoundTrip.UpstreamFate | src/core/config.c:130-244 | an upstream block also ends where the tokens end or at a lone `server`, and hangs if and only if another single token is left |
| ConfigRoundTrip.HttpFate | src/core/config.c:353-394 | the same for the http section; a lone `server` or `upstream` is read past too |
| ConfigRoundTrip.LoneKeyHangs | src/core/config.c:283-317 | a concrete case: a location that breaks off after one key goes on for ever |
| ConfigRoundTrip.ModifierIsUndefined | src/core/config.c:293-300 | a location whose path is not directly followed by its brace (a modifier such as `~*` stands in the way) makes the server block follow a NULL pointer |
| ConfigRoundTrip.MissingBraces | src/core/config.c:319-361 | blocks whose brace is missing: a server block leads to a NULL pointer, an upstream block is passed over, and a top-level http block is tried for ever |
| ConfigReader.Parser.ReadDirective | src/core/config.c:246-281 | the method with the moving index computes the parse of the remaining tokens and leaves the rest |
| ConfigReader.Parser.ReadValue | src/core/config.c:251-270 | the buffer loop joins the tokens up to the semicolon |
| ConfigReader.Parser.ReadLocation | src/core/config.c:283-317 | as for directives |
| ConfigReader.Parser.ReadServer | src/core/config.c:319-351 | as for directives; new locations are put at the head |
| ConfigReader.Parser.ReadPeer | src/core/config.c:170-222 | address and parameters of one upstream server |
| ConfigReader.Parser.ReadUpstream | src/core/config.c:130-244 | header checks, body, and the NULL result for a malformed header |
| ConfigReader.Parser.ReadHttp | src/core/config.c:353-394 | as for directives; blocks are put at the head of their lists |
| ConfigReader.Parser.ReadConfig | src/core/config.c:396-476 | the top-level loop: everything outside an http block is skipped, the last block stays |
| ConfigReader.LoadText | src/core/config.c:396-476 | end to end: tokenizing a text into the static array and parsing it gives `Load`, about which the round trip speaks |
| Routing.GetDirectiveValue | src/core/config.c:44-56 | the value of the first directive with that key |
| Routing.FirstDirectiveCounts | src/core/config.c:44-56 | of the directives with a key the first one counts, and without one there is no value |
| Routing.ListenPortBack | src/core/core.c:33-38 | the port read from a `listen` value is the number written there, whatever spaces stand before it and whatever follows a space behind it |
| Routing.ListensExactlyWhen | src/core/core.c:31-46 | a server whose `listen` directives name ports listens on exactly these |
| Routing.TwoPorts | src/core/core.c:24-71 | a concrete case: of two servers on two ports a request gets the one on its port |
| Routing.ListensOn | src/core/core.c:34-46 | whether some listen directive names the port |
| Routing.FindServer | src/core/core.c:24-71 | the first server listening on the port whose server_name is the host, else the first listening on the port, else the first of all |
| Routing.FindLocation | src/core/core.c:75-105 | the first of the longest non-empty paths that prefix the URI; none exactly when no such path exists |
| Routing.FindRoute | src/core/core.c:15-108 | both choices together, with the empty list and the missing URI: no location exactly when none matches |
| Routing.LoadedLocationTies | src/core/config.c:333-336 | after loading, a location is the one chosen if and only if it is the last declared of the longest matches in the file |
| Routing.LoadedServerTies | src/core/config.c:368-371 | after loading, a server is the one chosen if and only if it is the last declared one that qualifies |
| Routing.RouteInFile | src/core/core.c:15-108 | composed: for any layout of any well-formed file and any request, a route is a result of `FindRoute` on the loaded lists if and only if it is, in the file, the last qualifying server with the last declared longest match, or with no location because none matches; and there is only one such route |
| NginxRoundTrip.PrintThenParse | src/rust_modules/config/nginx_compat.rs:7-386 | for every configuration without line feeds whose header names are words, whatever else its values hold (spaces, semicolons, nothing), reading the printed text is validating `Normal(c)`: of a value the first word, of a list or header value all words, the semicolons at the end of a line gone, empty ones as defaults, listen merged with "80" |
| NginxRoundTrip.NormalIsValid | src/rust_modules/config/mod.rs:144-175 | the normal form passes validation unless an SSL section is read whose certificate or key has no word |
| NginxRoundTrip.FirstsDistinct | src/rust_modules/config/nginx_compat.rs:149-155 | the merged listen list has no repetition, loses nothing, and is the list itself exactly when nothing repeated |
| NginxRoundTrip.FirstsKeepOrder | src/rust_modules/config/nginx_compat.rs:149-155 | and it keeps the order of the list |
| NginxText.SettingLine | src/rust_modules/config/nginx_compat.rs:48-55 | a printed line is read as its name and the words of its values, the semicolons at its end gone, whatever the values are |
| NginxMeaning.TextMeans | src/rust_modules/config/nginx_compat.rs:7-290 | the reader computes, for every text, what `Meaning` tells without running it: refusal exactly for the first wrong number or an SSL section without certificate or key; otherwise for each setting the last line that sets it in its place, or its default; each `listen` address once; each closed location, its settings since the last one was closed |
| NginxMeaning.BodySizeLine | src/rust_modules/config/nginx_compat.rs:178-182 | a line `client_max_body_size v;` in a server block sets that setting to the first word of v and changes nothing else |
| NginxMeaning.KeepaliveLine | src/rust_modules/config/nginx_compat.rs:171-177 | a line `keepalive_timeout v;` there sets the timeout if the first word is a number and is refused otherwise |
| NginxMeaning.ErrorLogLine | src/rust_modules/config/nginx_compat.rs:127-141 | outside any block `error_log v;` sets the error log |
| NginxMeaning.WorkersLine | src/rust_modules/config/nginx_compat.rs:118-126 | and `worker_processes auto;` takes the number of processors |
| NginxMeaning.NumberExactlyWhen | src/rust_modules/config/nginx_compat.rs:118-126 | a word is taken for a number if and only if it is an optional plus sign, any zeros and the decimal digits of a number in range |
| NginxStable.ParsedIsSound | src/rust_modules/config/nginx_compat.rs:7-39 | every accepted text, however it is written, is read as a configuration of words: port 80 first, no address twice, lists not empty, header values with single spaces, numbers within their types, certificate, key and paths not empty |
| NginxStable.ReadThenPrint | src/rust_modules/config/nginx_compat.rs:7-386 | what was read from any text is printed and read again unchanged if and only if the settings that are not printed have their defaults and no value at the end of a printed line ends in a semicolon |
| NginxStable.UnchangedExactlyWhen | src/rust_modules/config/nginx_compat.rs:7-386 | for every configuration whatsoever, parse(print(c)) is c itself if and only if c passes a list of checks on its fields (`Survives`) |
| NginxStable.SecondRound | src/rust_modules/config/nginx_compat.rs:7-386 | after one round trip a second one changes nothing, and the result is its own normal form, if and only if no value at the end of a printed line ends in a semicolon |
| NginxStable.SecondRoundCanDiffer | src/rust_modules/config/nginx_compat.rs:7-386 | a concrete case: the root `a; b` comes back as `a;` and that as `a` |
| NginxStable.PortIsAdded | src/rust_modules/config/nginx_compat.rs:149-155 | a concrete case: a server listening on 8080 only comes back listening on 80 as well |
| NginxCompat.ParseNginxConfig | src/rust_modules/config/nginx_compat.rs:7-39 | the line loop over the three mutable variables computes `Parse`, first error included, and so `Meaning` |
| NginxCompat.Reader.ParseDirective | src/rust_modules/config/nginx_compat.rs:48-114 | one line: block structure, then the directive of the current context |
| NginxCompat.Reader.ParseGlobalDirective | src/rust_modules/config/nginx_compat.rs:116-145 | the new configuration, or the error and nothing changed |
| NginxCompat.Reader.ParseServerDirective | src/rust_modules/config/nginx_compat.rs:147-242 | the new configuration, or the error and nothing changed |
| NginxCompat.Reader.ParseLocationDirective | src/rust_modules/config/nginx_compat.rs:244-290 | the new location, or the error and nothing changed |
| NginxCompat.Reader.CloseBlock | src/rust_modules/config/nginx_compat.rs:75-97 | a closing brace files a location with a path and goes up one context |
| NginxCompat.PrintHeaders | src/rust_modules/config/nginx_compat.rs:373-377 | some order of the header table, each entry once, and the text of that order |
| NginxCompat.PrintLocation | src/rust_modules/config/nginx_compat.rs:347-379 | the text of one location for the order its headers were walked in |
| NginxCompat.ToNginxConfig | src/rust_modules/config/nginx_compat.rs:293-386 | the text built by successive pushes is `Print` for some walk of the header tables; without line feeds and with words as header names it reads back as the normal form, validated; and it reads back as c itself if and only if c survives |
| NginxRoundTrip.IgnoredLinesArePrinted | src/rust_modules/config/nginx_compat.rs:297-343 | the ciphers, the error log and the worker connections, which are not read back, are each a line of the text |
| Base64.RoundTrip | src/utils/asm/asm_opt.c:948-1132 | decoding the encoding of any byte string gives it back (section 4 of RFC 4648) |
| Base64.Injective | src/utils/asm/asm_opt.c:948-1013 | different byte strings have different encodings |
| Base64.AcceptsExactlyWhen | src/utils/asm/asm_opt.c:1019-1132 | a text is decoded if and only if its symbols are all in the alphabet or bytes from 224 on, which the decode table does not list and C sets to 0; a single one left over after the groups of four is not looked at |
| Base64.RefusesExactlyWhen | src/utils/asm/asm_opt.c:1019-1132 | the decoder accepts exactly the texts in the alphabet, unless a text holds nothing but symbols and bytes from 224 on, at least one of these |
| Base64.AcceptsForeignBytes | src/utils/asm/asm_opt.c:1021-1036 | a concrete case: four bytes 224 are decoded as three zero bytes |
| Base64.ForeignBytesReadAsA | src/utils/asm/asm_opt.c:1021-1036 | every text is decoded like the one with 'A' in place of each byte from 224 on |
| Base64.ReencodesExactlyWhen | src/utils/asm/asm_opt.c:948-1132 | encoding what was decoded gives the text back if and only if it is in the alphabet, leaves no symbol alone, has zeros in the unused bits and is padded to a multiple of four |
| Base64.Encoded | src/utils/asm/asm_opt.c:948-955 | the encoding has 4*ceil(n/3) characters |
| Base64.AlphabetInOrder | src/utils/asm/asm_opt.c:950 | the 64 values are written A-Z, a-z, 0-9, + and / in this order, and read back as the same values |
| Base64.TestVectors | src/utils/asm/asm_opt.c:948-1013 | the encodings of f, fo and foo are those of section 10 of RFC 4648 |
| Base64.EncodeGroups | src/utils/asm/asm_opt.c:960-1000 | the loop over whole groups, four or one at a turn, writes the encoding of exactly what it consumed |
| Base64.Encode | src/utils/asm/asm_opt.c:948-1013 | too small a buffer is left alone with result 0; otherwise the buffer begins with the encoding and a NUL, the rest is untouched, with or without the 12-byte loop |
| Base64.DecodeGroups | src/utils/asm/asm_opt.c:1036-1110 | the loop over whole groups, four or one at a turn; a refusal leaves what came before the group |
| Base64.Decode | src/utils/asm/asm_opt.c:1019-1132 | the buffer holds what `Decoded` says was written, also on a refusal; length or 0, with or without the 16-byte loop |
| Swar.TestIsExact | src/utils/asm/asm_opt.c:173-204 | (v - 0x01..01) & ~v & 0x80..80 is nonzero exactly when one of the eight bytes of v is zero |
| Swar.Strlen | src/utils/asm/asm_opt.c:173-204 | the distance to the first NUL, for every padded NUL-terminated string |
| Swar.Strcmp | src/utils/asm/asm_opt.c:206-241 | the difference of the bytes at the first position where the strings differ or end |
| Swar.DecidesOnce | src/utils/asm/asm_opt.c:206-241 | that position is unique, so the result is the one the byte-at-a-time definition gives |
| Swar.ZeroMeansEqual | src/utils/asm/asm_opt.c:206-241 | the result is 0 exactly when the strings are equal |
| Swar.SignIsOrder | src/utils/asm/asm_opt.c:206-241 | and it is negative exactly when the first string precedes the second in dictionary order |
| Swar.Strncmp | src/utils/asm/asm_opt.c:710-764 | the same within n characters, 0 when they are exhausted; no byte is read that the byte-at-a-time function would not have, up to the padding |
| Swar.Strchr | src/utils/asm/asm_opt.c:787-835 | the first occurrence of the character, the terminator included, or NULL exactly when there is none |
| Swar.Strrchr | src/utils/asm/asm_opt.c:2104-2144 | the last position before the terminator whose byte equals the int argument |
| Swar.StrrchrAgreesExactlyWhen | src/utils/asm/asm_opt.c:2104-2144 | it agrees with the C library if and only if 0 < c < 256, or c is out of that range, its low byte is not 0 and does not occur |
| Swar.StrrchrMissesTerminator | src/utils/asm/asm_opt.c:2104-2144 | a concrete failing family: for c = 0 it gives NULL where the C library gives the terminator |
| BufferFind.Sweep | src/utils/asm/asm_opt.c:358-374 | the stride-4 sweep finds the first occurrence at a multiple of four, or there is none |
| BufferFind.Find | src/utils/asm/asm_opt.c:352-386 | -1 exactly when the pattern is empty or nowhere; otherwise the first occurrence at a multiple of four if the sweep ran and there is one, else the first of all |
| BufferFind.FindsFirstExactlyWhen | src/utils/asm/asm_opt.c:352-386 | the result is the first occurrence unless the sweep runs and the pattern occurs at a multiple of four but for the first time elsewhere |
| BufferFind.SweepCanMissTheFirst | src/utils/asm/asm_opt.c:358-374 | a concrete case in which it is not |
| BlockMove.Memcpy | src/utils/asm/asm_opt.c:89-128 | alignment prefix, 64-byte blocks and tail together are the move, overlapping ranges with a lower destination included |
| BlockMove.Memmove | src/utils/asm/asm_opt.c:572-614 | for any two ranges of one memory, however they overlap, the result is the move, on every path |
| BlockMove.UpwardOverlapFails | src/utils/asm/asm_opt.c:572-614 | why the direction matters: the upward copy of an overlapping range does not give the move |
| LruCache.SafeOnAllRuns | src/rust_modules/cache/mod.rs:101-207 | after every run of calls that return, overwriting included: both limits hold, every stored key is listed, and the counter is the stored lengths plus the lengths written over since the last clear, so no subtraction underflows |
| LruCache.HitReturnsLastStored | src/rust_modules/cache/mod.rs:101-118 | every hit returns the data, type and creation time given by the last call that stored that key, with no later remove or clear, and the time to live given there (or else the default) is not over |
| LruCache.StoredIsHit | src/rust_modules/cache/mod.rs:101-180 | after a put that says it stored, gets and removals of other keys leave the key to be hit with what was given, exactly until its time is over |
| LruCache.PutStoresExactlyWhen | src/rust_modules/cache/mod.rs:120-169 | where map and list agree a put says it stored if and only if the cache is on, the size is within its limits, the type is kept, and the value alone fits an empty cache |
| LruCache.KnownTypes | src/rust_modules/cache/mod.rs:60-66 | concrete types that are kept, and some that are not |
| LruCache.CleanRunsAgree | src/rust_modules/cache/mod.rs:101-207 | on every run that never puts over a stored key all calls return and the list is a duplicate-free listing of exactly the stored keys in order of last put or hit |
| LruCache.EvictsShortestPrefix | src/rust_modules/cache/mod.rs:136-146 | in such a state the eviction loop terminates and takes off exactly the shortest least-recent prefix that makes room |
| LruCache.HangsIsForEver | src/rust_modules/cache/mod.rs:136-146 | the loop counts as hanging if and only if room is still wanted after every number of turns of its body |
| LruCache.DoneIsTheEnd | src/rust_modules/cache/mod.rs:136-146 | and as done with the first state, turn by turn, in which no room is wanted |
| LruCache.HangsExactlyWhen | src/rust_modules/cache/mod.rs:136-146 | room is wanted for ever if and only if the loop comes to a listed key that is no longer stored |
| LruCache.OverwritingCanHang | src/rust_modules/cache/mod.rs:120-169 | a concrete run: a key is put twice, and the eviction loop of a later put goes on for ever |
| ResponseCache.Cache.Get | src/rust_modules/cache/mod.rs:101-118 | hit exactly when enabled, stored and unexpired, with the stored entry; the hit moves the key to the recent end; hits and misses are counted |
| ResponseCache.Cache.Put | src/rust_modules/cache/mod.rs:120-169 | refusals, eviction and insertion in place make one `PutStep`; a put that says so has stored its own data, type, time and time to live |
| ResponseCache.Cache.MakeRoom | src/rust_modules/cache/mod.rs:136-146 | the eviction loop in place, with the number of stored entries as measure; every entry that goes is counted |
| ResponseCache.Cache.Remove | src/rust_modules/cache/mod.rs:171-180 | entry, bytes and listing go together; the entry is returned |
| ResponseCache.Cache.Clear | src/rust_modules/cache/mod.rs:182-190 | everything is emptied, the switch stays |
| ResponseCache.Cache.CleanupExpired | src/rust_modules/cache/mod.rs:192-207 | exactly the entries whose time is over go, in whatever order the map yields them |
| ResponseCache.Cache.SetEnabled | src/rust_modules/cache/mod.rs:220-223 | only the switch changes |
| TokenBucket.WindowConforms | src/utils/bandwidth.c:162-228 | in any window of calls on a monotone clock at most burst + floor(rate*elapsed/10^6) bytes are acquired |
| TokenBucket.HistoryConforms | src/utils/bandwidth.c:162-228 | the same from the creation of the controller on |
| TokenBucket.RunAccounts | src/utils/bandwidth.c:183-228 | the account of every run below the cap: all bytes acquired are counted as sent, and tokens left and bytes acquired together are the tokens there were and what the time earned, within one token per call |
| TokenBucket.GainsNearIdeal | src/utils/bandwidth.c:193-200 | m refills gain at most the ideal amount and less than m tokens short of it |
| TokenBucket.RefillsGain | src/utils/bandwidth.c:183-205 | below the cap, with nothing spent, the bucket gains exactly the sum of the floors |
| TokenBucket.FrequentRefillsStarve | src/utils/bandwidth.c:193-205 | the gain is 0 if and only if every gap by itself earns less than one token |
| TokenBucket.SufficesExactlyWhen | src/utils/bandwidth.c:183-242 | waiting w suffices if and only if rate*w covers the missing bytes times 10^6 |
| TokenBucket.DelayIsExact | src/utils/bandwidth.c:231-242 | less than the computed delay d never suffices, d suffices if and only if the rate divides what is missing, d + 1 always does |
| TokenBucket.DelayCanBeShort | src/utils/bandwidth.c:231-242 | a concrete case: at 3 bytes a second the delay computed for one missing byte is not enough |
| TokenBucket.SleepSufficesExactlyWhen | src/utils/bandwidth.c:219-228 | the clamped wait of a refused acquire: enough when it was rounded up to the minimum, never when it was capped, otherwise if and only if the rate divides what is missing |
| TokenBucket.SleepIsNearest | src/utils/bandwidth.c:208-228 | an acquire is granted exactly when the bytes are there, and otherwise answered with the point of 1000 to 100000 microseconds nearest to the computed delay |
| TokenBucket.SleepsAndEarnings | src/utils/bandwidth.c:208-228 | concrete cases of the shortest and the longest sleep and of a second's earnings |
| TokenBucket.BeyondBurstNever | src/utils/bandwidth.c:208-228 | more than the burst size can never be acquired |
| TokenBucket.Controller.constructor | src/utils/bandwidth.c:162-180 | a full bucket, with the defaults for zero arguments |
| TokenBucket.Controller.UpdateTokens | src/utils/bandwidth.c:183-205 | the fields after a refill at a given time |
| TokenBucket.Controller.Acquire | src/utils/bandwidth.c:208-228 | tokens and the byte counter after the call; 0 exactly when granted, otherwise the nearest allowed sleeping time |
| TokenBucket.Controller.CalculateDelay | src/utils/bandwidth.c:231-242 | the state after the refill, and the delay |
| TokenBucket.Controller.CanSend | src/utils/bandwidth.c:245-250 | the state after the refill, and whether the tokens suffice |
| Chunked.StreamBack | src/http/chunked.c:96-161 | for any sequence of chunks, empty ones among them, a receiver after section 7.1 of RFC 9112 recovers exactly the concatenation and stops exactly at the end |
| Chunked.EndWritten | src/http/chunked.c:132-161 | a stream ends with the last chunk, the trailer as given, and an empty line |
| Chunked.SizesWritten | src/http/chunked.c:107-108 | concrete sizes, in lower-case hexadecimal without leading zeros |
| Chunked.IntactExactlyWhen | src/http/chunked.c:39-58 | the pieces go out intact if and only if no send falls short |
| Chunked.OkExactlyWhen | src/http/chunked.c:39-58 | success is reported if and only if every send gets something out |
| Chunked.ShortSendSucceeds | src/http/chunked.c:96-129 | a concrete case: a chunk reported as sent that has not gone out whole |
| Chunked.Delivered | src/http/chunked.c:212-253 | when the transport takes everything, the receiver decodes exactly what was produced |
| Chunked.Context.SendData | src/http/chunked.c:39-58 | the counter counts every byte taken; a short send is a success |
| Chunked.Context.SendChunk | src/http/chunked.c:96-129 | nothing for an empty chunk, nothing once finished, otherwise size line, data and CRLF up to the first failure |
| Chunked.Context.SendFinalChunk | src/http/chunked.c:132-161 | terminator, trailer and CRLF; finished exactly when all were sent; nothing once finished |
| Chunked.Context.SendProduced | src/http/chunked.c:228-234 | the loop sends the produced chunks in order and stops at the first failure |
| Chunked.Context.SendStream | src/http/chunked.c:212-253 | everything produced, and the terminator unless the producer or a send failed; with a transport that takes everything the receiver decodes exactly the produced content |
| HealthHistory.ListsTheLast | src/proxy/health_check.c:468-489 | `get_all` lists exactly the last min(n, capacity) results, oldest first, from distinct slots |
| HealthHistory.LatestIsLast | src/proxy/health_check.c:455-465 | `get_latest` names the result added last |
| HealthHistory.ListedResultLasts | src/proxy/health_check.c:468-489 | a returned pointer shows its result until `capacity` further additions have been made, and then another one |
| HealthHistory.History.constructor | src/proxy/health_check.c:80-109 | an empty ring; a capacity that is not positive becomes 100 |
| HealthHistory.History.Add | src/proxy/health_check.c:426-452 | the slot under the cursor is overwritten, cursor and count move on |
| HealthHistory.History.GetLatest | src/proxy/health_check.c:455-465 | nothing exactly when nothing was added, else the slot of the last result |
| HealthHistory.History.GetAll | src/proxy/health_check.c:468-489 | the slots of the kept results in order, all in range |

## Left out

- LoadBalancer.Group.RoundRobin: requires an available server in groups of two or more; without one the call never returns (`CyclicScan.StopsExactlyWhen`).
- LoadBalancer.Group.IpHash: requires an available server in groups of two or more, for the same reason.
- LoadBalancer.Group.Scan: requires an available server or a group of one, for the same reason.
- LoadBalancer.Group.WeightedRoundRobin: counters are unbounded, so 32-bit overflow of weights and sums is not modelled.
- ConfigReader.Parser.ReadDirective: requires that the parse of the remaining tokens is defined and ends; on the other token lists the code goes on for ever or reads outside its arrays, which `ConfigSyntax` records as `Hangs` and `Undefined`. The same holds of the other `Read...` methods.
- ConfigReader.Parser.ReadConfig: the file is given as its text; post-parse handling of compression, cache, bandwidth and log directives is not modelled.
- ConfigRoundTrip.ParamsBack: integers are unbounded, so overflow in `atoi` is not modelled.
- ConfigRoundTrip.RoundTrip: an address after the colon that is no number, an argument of a known parameter that begins with no number, and keys equal to a block keyword are outside the well-formed files. Memory is unbounded, so a loop that appends for ever does not run out of it.
- ConfigReader.Parser.ReadUpstream: `health_config` and `proxy_pass`, which the parser never sets, are not fields of the model.
- Routing.FindServer: `listen` directives without a value, on which the code passes NULL to `strdup`, are excluded.
- ResponseCache.Cache.Put: requires that its eviction loop ends (`LruCache.HangsExactlyWhen` says exactly when it does not); etag, last_modified and the mutex are not modelled.
- NginxCompat.ParseNginxConfig: errors are their reasons; the line number put in front of them is not modelled. `num_cpus::get()` is a parameter.
- NginxRoundTrip.PrintThenParse: what a text reads as when values hold line feeds, or header names are no words, is left open; `NginxStable.UnchangedExactlyWhen` covers them, they never survive. The TOML format, `proxy` and `cache` sections are never printed and not modelled further.
- Base64.Encode: source and destination are distinct arrays; characters are unsigned, as on aarch64, for which alone the routines are written.
- Swar.Strlen: like the other string routines it requires readable bytes up to the end of the last word, as the eight-byte loads do; characters are unsigned, as on aarch64.
- BlockMove.Memmove: `memcpy` and `memmove` of the C library, used for short or non-NEON copies, are modelled by their definition; they are not part of this model.
- Chunked.Context.SendChunk: requires fewer than 16^13 bytes, beyond which the header is truncated; TLS and socket are a sequence of replies.
- Chunked.Context.SendStream: the file variant differs only in its producer and trailer text; response headers are left out.
- HealthHistory.History.Add: the mutex and the copy of the error message (a value here) are not modelled.
- Removing a server from a group: it can leave the cursor out of range and the sum of current weights off zero.
- Least connections, plain random, the session table and the statistics: simple minimum, index or floating-point code.
- Bandwidth-limited send loops: they ignore a second refusal, so only acquired bytes are bounded.
- The C cache and the memory pool: their intended list and disjointness invariants do not hold of the code.
- Sockets, HTTP parsing, TLS, proxying, logging, compression, push, stream, the FFI and the command line: I/O, foreign libraries or thin wrappers.
