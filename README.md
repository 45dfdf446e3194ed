# Options pricer: a Dafny model of its pricing core and its messaging client

This project models three parts of the Rust/WebAssembly options pricer and its
Svelte web front end, and proves properties of each.

1. **The 8-lane Black–Scholes engine** (`bs_f32x8_.rs`). The model works over
   mathematical reals.
   - The error function, the clamped cumulative normal and the normal density.
   - Call and put price, delta, theta and rho, together with gamma and vega.
   - The direction dispatchers and the combined `Greek` structs.
   - The strike-from-delta helpers.
   - The two masked Newton solvers for implied volatility and for the
     implied interest rate.

   The pieces sit in these modules:
   - `exp`, `ln` and `sqrt` are fields of a `Math` value (`RealMath`). The only
     facts assumed about them are those in `Lawful`: `exp` is positive, and
     `sqrt` is positive on positive inputs.
   - An `f32x8` is a length-8 `seq<real>` (`Lanes`).
   - The closed forms are written per lane (`NormalDist`, `Pricing`).
   - The Newton loops act on whole vectors, because their exit test
     `mask.all()` couples the lanes. They are written once, over an abstract
     problem (`Newton`), and instantiated for the two solvers (`Solvers`).

   Two formulas are modelled exactly as written:
   - the density uses `exp(+x²/2)`;
   - gamma carries a leading minus sign.

   The update in both Newton loops is `x − |diff|/derivative` in both blend
   branches.
2. **The Solace topic filters and the subscription table** (`solace-client.js`).
   - `convertSolaceTopicFilterToRegex` rewrites a filter into a regex string.
   - `topicMatchesTopicFilter` matches a topic against that regex at index 0,
     with a guard on `/`-segment counts.
   - The regex is read as tokens: literal characters, and `.*` meaning any run
     of characters other than line terminators.
   - The client's `subscriptions` table is a class. Its session is reduced to a
     `connected` flag.
3. **The connection state machine** (`stores.js`).
   - Four states, one event table per state, and `@xstate/fsm`'s rule that an
     event with no entry is ignored.
   - A service class models the `useMachine` store, which is set only when the
     state changes.

## Model

| member | source | states |
|---|---|---|
| `NormalDist.Erf` | black_scholes_option_pricer/src/bs_f32x8_.rs:5-21 | `erf_f32x8`: the Abramowitz–Stegun magnitude on `abs(x)`, negated for negative x; oddness is `ErfOdd` |
| `NormalDist.ErfMagnitude` | black_scholes_option_pricer/src/bs_f32x8_.rs:7-19 | on e = abs(x): `1 − u·exp(−e²)·poly(u)` with `u = 1/(e·p + 1)`; its nesting is `PolyNested` |
| `NormalDist.Npd` | black_scholes_option_pricer/src/bs_f32x8_.rs:35-38 | `npd_f32x8` as written, with `exp(+x²/2)`; evenness and positivity are `NpdEven` and `NpdPositive` |
| `NormalDist.Ncd` | black_scholes_option_pricer/src/bs_f32x8_.rs:23-33 | exactly 0.0 below −1e5 and exactly 1.0 above 1e5, whatever `erf` gives; `0.5·(1 + erf(x/√2))` in between |
| `NormalDist.PolyNested` | black_scholes_option_pricer/src/bs_f32x8_.rs:16-17 | the Horner fold over the coefficients is the source's nesting `u·(u·(u·(A5·u + A4) + A3) + A2) + A1` |
| `NormalDist.ErfOdd` | black_scholes_option_pricer/src/bs_f32x8_.rs:5-21 | erf(−x) = −erf(x) for x ≠ 0: the magnitude is computed on `abs(x)` and only the sign is restored |
| `NormalDist.NcdSymmetric` | black_scholes_option_pricer/src/bs_f32x8_.rs:5-33 | ncd(x) + ncd(−x) = 1 for every x ≠ 0, the clamped tails included |
| `NormalDist.NpdEven` | black_scholes_option_pricer/src/bs_f32x8_.rs:35-38 | npd(−x) = npd(x) |
| `NormalDist.NpdPositive` | black_scholes_option_pricer/src/bs_f32x8_.rs:35-38 | npd(x) > 0 under lawful `exp` |
| `Pricing.Terms` | black_scholes_option_pricer/src/bs_f32x8_.rs:46-68 | the per-lane intermediates d1, d2, the discounts and the ncd/npd values shared by all Greeks; their properties are `TermsWeights` and `TermsPositive` |
| `Pricing.CallPrice` | black_scholes_option_pricer/src/bs_f32x8_.rs:46-68 | `call_f32x8`: spot·exp(−qT)·ncd(d1) − strike·exp(−rT)·ncd(d2); parity with the put is `PutCallParity` |
| `Pricing.PutPrice` | black_scholes_option_pricer/src/bs_f32x8_.rs:242-265 | `put_f32x8`: strike·exp(−rT)·ncd(−d2) − spot·exp(−qT)·ncd(−d1); parity is `PutCallParity` |
| `Pricing.CallDelta` | black_scholes_option_pricer/src/bs_f32x8_.rs:70-89 | `call_delta_f32x8`: exp(−qT)·ncd(d1); parity with the put is `DeltaParity` |
| `Pricing.PutDelta` | black_scholes_option_pricer/src/bs_f32x8_.rs:90-109 | `put_delta_f32x8`: −exp(−qT)·ncd(−d1); parity is `DeltaParity` |
| `Pricing.Gamma` | black_scholes_option_pricer/src/bs_f32x8_.rs:111-128 | `gamma_f32x8` with its leading minus sign; its sign is `GammaNegative` |
| `Pricing.Vega` | black_scholes_option_pricer/src/bs_f32x8_.rs:130-147 | `vega_f32x8`: spot·exp(−qT)·npd(d1)·sqrt(T); its sign is `VegaPositive` |
| `Pricing.CallTheta` | black_scholes_option_pricer/src/bs_f32x8_.rs:148-173 | `call_theta_f32x8`; parity with the put is `ThetaParity` |
| `Pricing.PutTheta` | black_scholes_option_pricer/src/bs_f32x8_.rs:174-197 | `put_theta_f32x8`; parity is `ThetaParity` |
| `Pricing.CallRho` | black_scholes_option_pricer/src/bs_f32x8_.rs:198-220 | `call_rho_f32x8`: strike·T·exp(−rT)·ncd(d2); parity with the put is `RhoParity` |
| `Pricing.PutRho` | black_scholes_option_pricer/src/bs_f32x8_.rs:221-240 | `put_rho_f32x8`: −strike·T·exp(−rT)·ncd(−d2); parity is `RhoParity` |
| `Pricing.Price` | black_scholes_option_pricer/src/bs_f32x8_.rs:268-295 | `price_f32x8` gives the call price for `Call` and the put price for `Put`, with the arguments passed through unchanged |
| `Pricing.Delta` | black_scholes_option_pricer/src/bs_f32x8_.rs:298-325 | `delta` gives the call delta for `Call` and the put delta for `Put` |
| `Pricing.Theta` | black_scholes_option_pricer/src/bs_f32x8_.rs:327-354 | `theta` gives the call theta for `Call` and the put theta for `Put` |
| `Pricing.Rho` | black_scholes_option_pricer/src/bs_f32x8_.rs:356-383 | `rho` gives the call rho for `Call` and the put rho for `Put` |
| `Pricing.CallGreeks` | black_scholes_option_pricer/src/bs_f32x8_.rs:509-546 | the pv, delta, gamma, vega, theta and rho fields of `call_greeks_f32x8` equal the standalone `call_*`, `gamma` and `vega` functions on the same inputs |
| `Pricing.PutGreeks` | black_scholes_option_pricer/src/bs_f32x8_.rs:548-587 | the pv, delta, gamma, vega, theta and rho fields of `put_greeks_f32x8` equal the standalone `put_*`, `gamma` and `vega` functions |
| `Pricing.GreeksShareGammaAndVega` | black_scholes_option_pricer/src/bs_f32x8_.rs:509-587 | the call and put Greek structs agree on gamma and vega |
| `Pricing.TermsWeights` | black_scholes_option_pricer/src/bs_f32x8_.rs:46-68 | ncd(d1) + ncd(−d1) = 1 when d1 ≠ 0, and likewise for d2 |
| `Pricing.PvParityOf` | black_scholes_option_pricer/src/bs_f32x8_.rs:242-265 | over any intermediates with complementary weights, call pv − put pv = spot·la − g |
| `Pricing.DeltaParityOf` | black_scholes_option_pricer/src/bs_f32x8_.rs:90-109 | over complementary weights, call delta − put delta = la |
| `Pricing.RhoParityOf` | black_scholes_option_pricer/src/bs_f32x8_.rs:221-240 | over complementary weights and the discounted strike `g = strike·exp(−rT)`, call rho − put rho = strike·exp(−rT)·T |
| `Pricing.ThetaParityOf` | black_scholes_option_pricer/src/bs_f32x8_.rs:174-197 | over complementary weights and the two discounts, call theta − put theta = q·spot·exp(−q·T) − r·strike·exp(−r·T) |
| `Pricing.PutCallParity` | black_scholes_option_pricer/src/bs_f32x8_.rs:46-68 | put-call parity lane-wise when d1 and d2 are nonzero: call − put = spot·exp(−q·T) − strike·exp(−r·T) |
| `Pricing.PriceParity` | black_scholes_option_pricer/src/bs_f32x8_.rs:268-295 | the same parity through `price_f32x8` |
| `Pricing.DeltaParity` | black_scholes_option_pricer/src/bs_f32x8_.rs:70-109 | call delta − put delta = exp(−q·T) when d1 ≠ 0 |
| `Pricing.RhoParity` | black_scholes_option_pricer/src/bs_f32x8_.rs:198-240 | call rho − put rho = strike·exp(−r·T)·T when d2 ≠ 0 |
| `Pricing.ThetaParity` | black_scholes_option_pricer/src/bs_f32x8_.rs:148-197 | call theta − put theta = q·spot·exp(−q·T) − r·strike·exp(−r·T) when d1, d2 ≠ 0 |
| `Pricing.TermsPositive` | black_scholes_option_pricer/src/bs_f32x8_.rs:111-147 | for a positive expiry, the dividend discount, `sqrt(T)` and npd(d1) are positive |
| `Pricing.GammaNegativeOf` | black_scholes_option_pricer/src/bs_f32x8_.rs:111-128 | over positive intermediates, spot and volatility, gamma is negative |
| `Pricing.VegaPositiveOf` | black_scholes_option_pricer/src/bs_f32x8_.rs:130-147 | over positive intermediates and spot, vega is positive |
| `Pricing.GammaNegative` | black_scholes_option_pricer/src/bs_f32x8_.rs:111-128 | for positive spot, volatility and expiry, gamma < 0, so it is never positive |
| `Pricing.VegaPositive` | black_scholes_option_pricer/src/bs_f32x8_.rs:130-147 | for positive spot and expiry, vega > 0, so it is never negative |
| `Pricing.StrikeOfNonNegative` | black_scholes_option_pricer/src/bs_f32x8_.rs:474-498 | `spot·abs(t_0)` is non-negative for a non-negative spot |
| `Pricing.StrikeOfOrder` | black_scholes_option_pricer/src/bs_f32x8_.rs:474-498 | with non-negative factors, flipping the ncd weight's sign cannot increase `abs(t_0)` |
| `Pricing.CallStrikeFromDelta` | black_scholes_option_pricer/src/bs_f32x8_.rs:474-485 | `call_strike_from_delta_f32x8` with the ncd weight −ncd(delta·exp(rT)); its bounds are `CallStrikeNonNegative` and `StrikeFromDeltaOrder` |
| `Pricing.PutStrikeFromDelta` | black_scholes_option_pricer/src/bs_f32x8_.rs:487-498 | `put_strike_from_delta_f32x8` with the weight +ncd(delta·exp(rT)); its bounds are `PutStrikeNonNegative` and `StrikeFromDeltaOrder` |
| `Pricing.CallStrikeNonNegative` | black_scholes_option_pricer/src/bs_f32x8_.rs:474-485 | the call strike is non-negative for a non-negative spot |
| `Pricing.PutStrikeNonNegative` | black_scholes_option_pricer/src/bs_f32x8_.rs:487-498 | the put strike is non-negative for a non-negative spot |
| `Pricing.StrikeTermsPositive` | black_scholes_option_pricer/src/bs_f32x8_.rs:481-482 | `sqrt(T)` is positive for a positive expiry |
| `Pricing.StrikeFromDeltaOrder` | black_scholes_option_pricer/src/bs_f32x8_.rs:474-498 | the put strike is at least the call strike when volatility ≥ 0, T > 0 and ncd(d1) ≥ 0 |
| `Pricing.StrikeFromDeltaClamped` | black_scholes_option_pricer/src/bs_f32x8_.rs:474-498 | below the ncd clamp both helpers return spot·abs(vol²/2·T) |
| `Pricing.StrikeOfZeroWeight` | black_scholes_option_pricer/src/bs_f32x8_.rs:483-484 | with a zero ncd weight only the drift term is left: the strike is spot·abs(vol²/2·T) |
| `Newton.WithinLanes` | black_scholes_option_pricer/src/bs_f32x8_.rs:405-407 | the exit test on `a − b` holds exactly when every lane satisfies abs(a − b) < tolerance |
| `Newton.NewtonUpdate` | black_scholes_option_pricer/src/bs_f32x8_.rs:418-420 | the blended update of both loops; its value per lane is `NewtonUpdateLane` |
| `Newton.NewtonUpdateLane` | black_scholes_option_pricer/src/bs_f32x8_.rs:418-420 | in both blend branches, a lane with a nonzero derivative moves by exactly −abs(diff)/derivative |
| `Newton.MissedAt` | black_scholes_option_pricer/src/bs_f32x8_.rs:395-409 | every iterate before the returned one failed the exit test |
| `Newton.Solve` | black_scholes_option_pricer/src/bs_f32x8_.rs:394-422 | the loop returns the `iterations`-th iterate; it reports convergence exactly when that iterate passes the exit test; it stops early only on convergence; no earlier iterate passed |
| `Solvers.PriceLanes` | black_scholes_option_pricer/src/bs_f32x8_.rs:268-295 | `price_f32x8` on whole vectors, lane by lane, as both solvers call it (lines 396 and 436) |
| `Solvers.VegaLanes` | black_scholes_option_pricer/src/bs_f32x8_.rs:130-147 | `vega_f32x8` on whole vectors, the derivative of the volatility solver (line 410) |
| `Solvers.RhoLanes` | black_scholes_option_pricer/src/bs_f32x8_.rs:356-383 | `rho` on whole vectors, the derivative of the rate solver (line 445) |
| `Solvers.ImpliedVol` | black_scholes_option_pricer/src/bs_f32x8_.rs:385-423 | `implied_vol_f32x8` starts at 0.2, iterates along vega without a clamp, and returns only once every lane passes its exit test (or fuel runs out, reported) |
| `Solvers.VolDoneLanes` | black_scholes_option_pricer/src/bs_f32x8_.rs:405-409 | the volatility exit test holds exactly when every lane has abs(price(vol) − price) < 0.001 |
| `Solvers.VolStepLane` | black_scholes_option_pricer/src/bs_f32x8_.rs:418-420 | each unclamped update sets a lane with nonzero slope to vol − abs(diff)/vega |
| `Solvers.VolProblemUnclamped` | black_scholes_option_pricer/src/bs_f32x8_.rs:420-421 | the volatility iteration applies no clamp after an update |
| `Solvers.ClampRate` | black_scholes_option_pricer/src/bs_f32x8_.rs:463-469 | the two masked clamps to [0, 2]; what they achieve is `ClampRateBox` |
| `Solvers.ClampRateBox` | black_scholes_option_pricer/src/bs_f32x8_.rs:463-469 | the two masked clamps put every lane in [0, 2] and change only lanes outside it |
| `Solvers.IrAfterInBox` | black_scholes_option_pricer/src/bs_f32x8_.rs:434-470 | every rate iterate, the first guess 0.05 included, lies in [0, 2] |
| `Solvers.ImpliedIr` | black_scholes_option_pricer/src/bs_f32x8_.rs:425-472 | `implied_ir_f32x8` starts at 0.05, keeps every lane in [0, 2], and returns only once every lane passes its exit test (or fuel runs out, reported) |
| `Solvers.IrDoneLanes` | black_scholes_option_pricer/src/bs_f32x8_.rs:455-459 | the rate exit test holds exactly when every lane has abs(price(rate) − price) < 0.0001 |
| `Solvers.IrStepLane` | black_scholes_option_pricer/src/bs_f32x8_.rs:460-469 | a rate update that lands inside [0, 2] sets the lane to rate − abs(diff)/rho; the clamps leave it alone |
| `Solvers.IrProblemClamped` | black_scholes_option_pricer/src/bs_f32x8_.rs:463-469 | the rate iteration clamps with `ClampRate` after every update |
| `TopicFilter.ReplaceAll` | options_pricing_web_app/src/solace-client.js:366 | `replace(/c/g, r)` on every occurrence; what the two calls make of a filter is `ReplaceWildcards` |
| `TopicFilter.LastIndexOf` | options_pricing_web_app/src/solace-client.js:368 | the last position of the character counted in characters, or −1 exactly when the character is absent |
| `TopicFilter.JsLength` | options_pricing_web_app/src/solace-client.js:368 | `length` in UTF-16 code units: between the number of characters and twice that; it adds up over concatenation |
| `TopicFilter.JsLengthBmp` | options_pricing_web_app/src/solace-client.js:368 | `length` equals the number of characters exactly when no character lies outside the Basic Multilingual Plane |
| `TopicFilter.JsLastIndexOf` | options_pricing_web_app/src/solace-client.js:368 | `lastIndexOf` in UTF-16 code units: −1 exactly when the character is absent, otherwise the code-unit length of everything before its last occurrence |
| `TopicFilter.JsSubstring` | options_pricing_web_app/src/solace-client.js:369-372 | `substring(start, end)` with both bounds clamped into range and swapped when out of order |
| `TopicFilter.SplitLength` | options_pricing_web_app/src/solace-client.js:346 | `split(sep).length` is one more than the number of occurrences of the separator, so exactly 1 when it does not occur |
| `TopicFilter.ReplaceWildcards` | options_pricing_web_app/src/solace-client.js:366 | the two `replace` calls turn every `*` and every `#` into `.*` and copy every other character in order |
| `TopicFilter.ToRegex` | options_pricing_web_app/src/solace-client.js:363-376 | `convertSolaceTopicFilterToRegex` as written, the `>` test in UTF-16 units; its cases are the three `ToRegex…` lemmas |
| `TopicFilter.TrailingGtUnits` | options_pricing_web_app/src/solace-client.js:368 | the code-unit test `lastIndexOf(">") == length − 1` holds exactly when the filter is empty or ends in `>` |
| `TopicFilter.ToRegexEmpty` | options_pricing_web_app/src/solace-client.js:368-372 | the empty filter converts to `.*`, because `lastIndexOf(">")` = −1 = `length − 1` |
| `TopicFilter.ToRegexTrailingGt` | options_pricing_web_app/src/solace-client.js:368-373 | a trailing `>` is replaced by `.*` after the rest is rewritten |
| `TopicFilter.ToRegexNoTrailingGt` | options_pricing_web_app/src/solace-client.js:363-376 | a non-empty filter that does not end in `>` is only rewritten |
| `TopicFilter.InnerGtKept` | options_pricing_web_app/src/solace-client.js:368-373 | a `>` before the last position appears verbatim in the regex, right after the rewritten prefix |
| `TopicFilter.RenderPattern` | options_pricing_web_app/src/solace-client.js:363-376 | the token sequence read from a filter spells exactly the regex string the conversion builds |
| `TopicFilter.PatternLiteralsPlain` | options_pricing_web_app/src/solace-client.js:363-376 | for a valid filter no literal token is a regex metacharacter |
| `TopicFilter.MatchesPrefixIff` | options_pricing_web_app/src/solace-client.js:339-342 | a match at index 0 is a full match of some prefix of the topic; the match is not anchored at the end |
| `TopicFilter.TopicMatches` | options_pricing_web_app/src/solace-client.js:336-356 | `topicMatchesTopicFilter` as written; its meaning is `TopicMatchesIff` |
| `TopicFilter.TopicMatchesIff` | options_pricing_web_app/src/solace-client.js:336-356 | a topic matches exactly when the pattern matches a prefix of it and the segment guard (the regex's last `*` at UTF-16 index `topic.length − 1`, with different segment counts) does not fire |
| `TopicFilter.LiteralFilterPrefix` | options_pricing_web_app/src/solace-client.js:336-356 | a valid filter without wildcards matches exactly the topics it is a prefix of |
| `TopicFilter.SlashStarText` | options_pricing_web_app/src/solace-client.js:363-376 | the filter `a/*` converts to `a/.*` |
| `TopicFilter.SlashStarTokens` | options_pricing_web_app/src/solace-client.js:339 | the regex `a/.*` is read as the tokens `a`, `/`, `.*` |
| `TopicFilter.SlashStarShape` | options_pricing_web_app/src/solace-client.js:344-346 | the last `*` of `a/.*` is at index 3 and it has two segments |
| `TopicFilter.SlashStarUnits` | options_pricing_web_app/src/solace-client.js:344 | in UTF-16 units too, the last `*` of `a/.*` is at index 3 |
| `TopicFilter.SlashStarMatchesPrefix` | options_pricing_web_app/src/solace-client.js:339-342 | the regex `a/.*` matches at index 0 exactly the topics that start with `a/` |
| `TopicFilter.GuardRejects` | options_pricing_web_app/src/solace-client.js:344-349 | the topic `a//b` is rejected for the filter `a/*` although the regex matches it |
| `TopicFilter.WildcardSpansLevels` | options_pricing_web_app/src/solace-client.js:344-351 | the filter `a/*` matches the two-level topic `a/b/c`: the guard does not fire there |
| `TopicFilter.EmptyFilterMatches` | options_pricing_web_app/src/solace-client.js:336-376 | the empty filter matches every topic except those of UTF-16 length 2 that contain `/` |
| `TopicFilter.AstralTopicMatches` | options_pricing_web_app/src/solace-client.js:336-356 | the filter `a/*` matches `a/` + U+1F600 + `/`: the emoji counts two code units, so the guard does not fire although the segment counts differ |
| `SolaceClient.Client.constructor` | options_pricing_web_app/src/solace-client.js:31-38 | a new client has no session and an empty table, so no entry is named like an inherited property |
| `SolaceClient.Client.SessionCreated` | options_pricing_web_app/src/solace-client.js:114-124 | creating the session leaves the table unchanged |
| `SolaceClient.Client.SessionDisposed` | options_pricing_web_app/src/solace-client.js:158-165 | dropping the session on DISCONNECTED leaves the table unchanged |
| `SolaceClient.Client.Subscribe` | options_pricing_web_app/src/solace-client.js:231-243 | unchanged when disconnected; unchanged when `subscriptions[topic]` is truthy, that is when the topic has an entry (the first handler is kept) or names a property inherited from `Object.prototype`; otherwise exactly `{handler, isSubscribed: false}` is inserted; the table never gains a key named like an inherited property |
| `SolaceClient.Client.Unsubscribe` | options_pricing_web_app/src/solace-client.js:260-267 | a no-op when disconnected; otherwise exactly that key is removed |
| `SolaceClient.Client.UnsubscribeAll` | options_pricing_web_app/src/solace-client.js:279-289 | a connected client ends with an empty table; a disconnected one fails with the table unchanged |
| `SolaceClient.Client.OnMessage` | options_pricing_web_app/src/solace-client.js:68-75 | dispatches to exactly the filters in the table for which `TopicMatches` holds, and to no other (the JavaScript dispatch while every filter is a `ValidFilter`) |
| `SolaceClient.UnsubscribeUndoesSubscribe` | options_pricing_web_app/src/solace-client.js:243-267 | unsubscribing a freshly subscribed filter gives back the original table |
| `SolaceClient.SubscribeThenDisconnect` | options_pricing_web_app/src/solace-client.js:158-165 | a subscription made while connected survives the loss of the session; a topic named like an inherited property is never entered |
| `ConnectMachine.On` | options_pricing_web_app/src/stores.js:12-32 | the `on` table of each of the four states; its edges are `EdgesAreTransitions` and `TransitionsAreEdges` |
| `ConnectMachine.Transition` | options_pricing_web_app/src/stores.js:12-32 | the machine's `transition`: the table's target, or the same state when the event has no entry (`UnknownEventIgnored`) |
| `ConnectMachine.EdgesAreTransitions` | options_pricing_web_app/src/stores.js:12-32 | each of the five listed edges is a transition |
| `ConnectMachine.TransitionsAreEdges` | options_pricing_web_app/src/stores.js:12-32 | every state change is one of the five listed edges; there are no others |
| `ConnectMachine.UnknownEventIgnored` | options_pricing_web_app/src/stores.js:12-32 | an event with no entry in the current state's table leaves the state unchanged |
| `ConnectMachine.ChangedIff` | options_pricing_web_app/src/useMachine.js:22-26 | `changed` holds exactly when the state differs |
| `ConnectMachine.ConnectedOnlyFromConnecting` | options_pricing_web_app/src/stores.js:18-21 | `connected` is entered only from `connecting`, on UP_NOTICE |
| `ConnectMachine.TraceEndsInRun` | options_pricing_web_app/src/stores.js:12-32 | the last state of a trace is the state the run reaches |
| `ConnectMachine.ConnectedRunsPassConnecting` | options_pricing_web_app/src/stores.js:12-32 | every run from outside `connected` that ends in `connected` passes through `connecting` |
| `ConnectMachine.AllReachable` | options_pricing_web_app/src/stores.js:10-32 | all four states are reachable from the initial state `disconnected` |
| `ConnectMachine.Service.constructor` | options_pricing_web_app/src/stores.js:10 | the service starts in `disconnected`, and the store holds that state |
| `ConnectMachine.Service.Send` | options_pricing_web_app/src/useMachine.js:19-37 | the state moves by the transition table; the store is replaced only on an actual change, so it always equals the state |

## Left out

- f32 arithmetic: rounding, NaN/Inf propagation and signed zero are not modelled. Arithmetic is over reals. `sign_bit` is `x < 0`.
- Division: a zero divisor, which gives Inf/NaN in the source, is sent to an unspecified `quotByZero` value.
- Numerical accuracy: the Abramowitz–Stegun error bound and the agreement with scalar reference values in the source's tests cannot be stated over uninterpreted reals.
- `mul_add`/`mul_neg_add` are modelled as the plain expressions `a·b + c` and `c − a·b`.
- The perf tests, the commented-out American binomial pricer and the commented-out test block are not modelled.
- Shared intermediates: the source recomputes d1, d2, the discounts and the ncd/npd values inline in every function. The model computes them once per lane (`Pricing.Terms`) from the same expressions.
- Newton.Solve: the source loops without a bound. The model takes a `fuel` bound, reports whether it converged, and proves only what holds on exit; convergence itself is not claimed.
- Solvers.ImpliedIr: the source evaluates rho before the exit test, the model after it. Both are pure, so the returned rate is the same.
- Solvers.VolStepLane: stated over any unclamped iteration. `VolProblem` supplies the objective price(vol) − price and the slope vega, and `VolProblemUnclamped` shows it has no clamp. The lane value is not restated in terms of the pricing functions.
- Solvers.IrStepLane: stated over any iteration clamped by `ClampRate`, in the same way as `VolStepLane`.
- Pricing.StrikeFromDeltaOrder: needs ncd(d1) ≥ 0, which `Lawful` does not provide for the uninterpreted `exp`.
- TopicFilter.LastIndexOf: counts characters, not UTF-16 code units. It is the character position that `JsLastIndexOf` converts to the JavaScript index; the conversion and the guard use `JsLastIndexOf`.
- TopicFilter.JsSubstring: its bounds count characters, not UTF-16 code units. Its one call runs in two cases, and both give the JavaScript result. For a filter ending in `>` it cuts the last character of the regex, the `>`, which is a single code unit. For the empty filter it is `JsSubstring("", 0, -1)`, where clamping gives `""` just as `substring` does.
- TopicFilter.Matches: the regex is matched on characters, JavaScript matches on UTF-16 code units. Every literal of the pattern is a whole character and `.*` accepts any run, so a match at index 0 exists in one reading exactly when it exists in the other. Lengths and indices in the guard are taken in code units (`JsLength`, `JsLastIndexOf`).
- TopicFilter.TopicMatches: regexes are read only as literals and `.*`. This is the JavaScript meaning only for filters whose characters are not regex metacharacters (`ValidFilter`). Other filters are outside the model.
- SolaceClient.Client.OnMessage: returns the set of dispatched filters. The order of `Object.keys`, in which the source calls the handlers, is not modelled, and neither is running the handlers. `Subscribe` enters any filter, as the source does, but `TopicMatches` has the JavaScript meaning only for filters that pass `ValidFilter`. So the ensures give JavaScript's dispatch only while every filter in the table is a `ValidFilter`. A filter with another regex metacharacter matches differently in the source: `a.b` matches `axb` there. A filter that is not a valid regex, such as `a(`, makes `topic.match` throw a `SyntaxError`, which ends the loop early. Neither of these is modelled.
- SolaceClient.Client: the table is a `map`, so its own keys are the model. The prototype chain enters only through `Present`: a topic named like an `Object.prototype` property is refused by `subscribe`, as in the source, so assigning such a key (for `__proto__`, replacing the prototype) never happens.
- Broker calls (`session.subscribe`, `session.unsubscribe`) and their errors are no-ops. The SUBSCRIPTION_ERROR handler refers to an undefined `subscription` and is not part of this model.
- `connect` and `disconnect`, with their Promises, URL check and event wiring, are reduced to `SessionCreated`/`SessionDisposed`. The logging functions and `serializeMessage` are not part of this model.
- `useMachine` and the Svelte store are reduced to the `Service` class.
