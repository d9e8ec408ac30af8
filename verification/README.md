# Trading platform: a verified model

Models of the platform's stateful and numerical core, in Dafny, with proofs of what that
code promises. `dafny verify dfyconfig.toml` checks everything.

- **Regime model** (`Vectors`, `HmmPaths`, `HmmForwardBackward`, `HmmScaling`,
  `HmmReestimation`, `HmmParameters`, `HmmBaumWelch`, `HmmViterbi`, `HmmObservation`, `HmmRegime`).
  A Gaussian hidden Markov model. The specification sums and maximises over all state paths; the code fills arrays
  in quadratic time. Emission weights and log-scores come from an arbitrary `exp` and `log`
  (`Kernel`); everything else is exact real arithmetic.
- **Signal engine** (`Columns`, `ExponentialMeans`, `RollingWindows`, `Indicators`, `IndicatorMeaning`,
  `SwingLevels`, `Layers`, `LayerMeaning`, `SignalModels`, `SignalFrames`, `SignalEngine`, `EngineMeaning`).
  Indicators computed once over a whole frame, six scoring layers, suppression. The main
  result compares two frames: no signal up to a bar depends on a later bar. The `Meaning` modules
  say what indicators, scores and signals are in terms of prices. Undefined values are `None`.
- **Paper trading** (`Symbols`, `Ledger`, `PaperBroker`, `OrderManager`). Positions netted in
  place, against the plain ledger of fills.
- **Candle store** (`OhlcStore`). A bounded cache against the list of all bars ever given.
- **Plans** (`Plans`). Two quota windows, expiry and downgrade, over whole runs of calls.
- **Admission and resilience** (`CircuitBreaker`, `Counting`, `RateLimits`, `SignalTable`,
  `DeliveryRules`, `Scanner`, `LlmRetry`, `LlmCalls`). State machines whose steps are the
  stretches of code without an `await`; passes of the scanner and calls to the language model
  interleave between them.
- **Key levels** (`KeyLevels`). Swing pivots clustered by price.

Floats are modelled as reals, timestamps as integers (the breaker's and the client's
monotonic clocks as reals), tables as sequences of rows. Clocks, random draws, network
replies and database failures are parameters.

## Where the code differs from its description

- `shared/hmm_regime.py:194` divides by totals over time, so `pi` need not stay a distribution
  (`HmmBaumWelch.NewInitialNotADistribution`). `HmmBaumWelch.NewInitialSum` says exactly when it
  does, provided the states that can start are all visited at least once in expectation or
  all at most once. Beyond that proviso one half holds: a single expected visit to each
  starting state is enough for a sum of 1. It is not necessary there: a posterior that never
  changes gives the number of states over the number of observations
  (`HmmBaumWelch.UnchangingPosterior`).
- `shared/hmm_regime.py:178` skips zero scales, so the log-likelihood of impossible data is that of
  a prefix (`HmmReestimation.LogScalesMeaning`, `HmmReestimation.PrefixReported`).
- `signals/engine.py:298-305`, the early return for insufficient history, is never taken: the
  warmup bound is positive for every valid configuration, and the loop that follows is then
  empty for short frames.
- `signals/models.py:245-261`: the warmup is said to cover every layer. It covers MACD exactly when
  it is at least 34 bars long, and leaves ADX out when shorter than twice the ADX period
  (`EngineMeaning.WarmupExactly`).
- `orchestrator/plans.py:89-116`: with a positive period, composing two enforcements
  fails exactly for a plan already expired at the first, unless whole periods separate them
  (`Plans.EnforceComposesExactly`).
- `shared/llm.py:277`: with a negative number of retries no attempt is made and a call
  raises, which breaks the balance of the counters (`LlmRetry.CallBalances`,
  `LlmCalls.InterleavingsBalance`). The reason of an error can be that of an earlier attempt
  (`LlmRetry.ReasonCanBeStale`; `LlmRetry.ReasonIsLastAttempts` says when it is not). `calls`
  counts attempts.
- `telegram_bot/scanner.py:260-268` swallows a failed write, so a signal can be sent twice
  (`DeliveryRules.SentAgainExactlyWhenUnrecorded`); the cooldown is measured from the bar, so
  deliveries keep that distance exactly when they are not late
  (`DeliveryRules.SpacedExactlyWhenPrompt`); only the global quiet hours are
  read, so a pair's own are kept exactly when the global ones contain them
  (`DeliveryRules.OwnQuietExactly`).
- `execution/broker_api.py:96-108` reports a rounded commission and charges the exact one
  (`Ledger.ReportedNearCharged`, `Ledger.ReportedExactly`, `Ledger.SmallFillUnreported`).
- `orchestrator/zenmux_analysis.py:301-304`: the final guards never fire over the reals.

## Model

| member | source | states |
|---|---|---|
| HmmPaths.AllPathsExact | shared/hmm_regime.py:252-273 | The specification ranges over every state sequence of a given length, each exactly once. All sums and maxima below are over this list. |
| HmmForwardBackward.MassOfState | shared/hmm_regime.py:143-176 | Unscaled forward weight times unscaled backward weight of state s at t is the total weight of all state paths that pass through s at t. |
| HmmForwardBackward.MassOfStep | shared/hmm_regime.py:196-208 | Forward weight, one transition and emission, backward weight: the total weight of all paths that step from q to r at t. |
| HmmScaling.ForwardPassSumsPaths | shared/hmm_regime.py:143-161 | For any observations, the product of scales 0..t times alpha[t,s] is the sum over all state paths of length t+1 ending in s of initial, transition and emission weights. |
| HmmScaling.ScalesMultiplyToLikelihood | shared/hmm_regime.py:151-161 | The product of all scales is the likelihood: the sum over all state paths. |
| HmmScaling.PossibleExactly | shared/hmm_regime.py:151-161 | Every scale is positive if and only if some state path has positive weight. |
| HmmScaling.GammaSums | shared/hmm_regime.py:154-176 | alpha·beta is non-negative and sums to 1 at every time when the observations are possible, and to 0 when they are not. |
| HmmScaling.GammaIsPosterior | shared/hmm_regime.py:188-194 | alpha[t,s]·beta[t,s] is the share of the total path weight held by the paths that are in s at t. |
| HmmReestimation.LogScalesMeaning | shared/hmm_regime.py:178 | The reported log-likelihood is the logarithm of the weight of the longest prefix of the observations that some state path explains; it skips zero scales. |
| HmmReestimation.LogLikelihoodExactly | shared/hmm_regime.py:178 | It is the logarithm of the full likelihood when the observations are possible; the explained prefix is the whole exactly then. |
| HmmReestimation.PrefixReported | shared/hmm_regime.py:178 | A model and two observations no path explains: one scale is zero, and the logarithm of the first observation's weight is reported. |
| HmmReestimation.XiSumsToGamma | shared/hmm_regime.py:196-212 | For all observations, normalised xi[t] summed over next states equals gamma[t], for every t below the last. |
| HmmReestimation.XiIsPosterior | shared/hmm_regime.py:196-212 | xi[t,q,r] is the share of the total path weight held by the paths that step from q to r at t. |
| HmmParameters.ReestimatedWellFormed | shared/hmm_regime.py:181-228 | One EM step on any well-formed model keeps transition rows distributions, initial entries in [0,1] and shapes right, and puts every variance at or above the floor. |
| HmmParameters.NewMeanInRange | shared/hmm_regime.py:219 | The new mean of a visited state lies between any bounds of its data column. |
| HmmParameters.NewMeanUnvisited | shared/hmm_regime.py:191-219 | A state with zero total weight gets mean zero: the range claim needs the visit. |
| HmmBaumWelch.NewTransitionIsExpected | shared/hmm_regime.py:196-217 | Baum-Welch over paths, for all observations: times the weight of departures from s, the new entry (s,r) is the weight of steps from s to r; a state never left keeps its row. |
| HmmBaumWelch.NewMeanIsExpected | shared/hmm_regime.py:219 | Times the weight of all visits to s over state paths, the new mean is the data summed over those visits. |
| HmmBaumWelch.NewVarianceIsExpected | shared/hmm_regime.py:220-225 | The new variance is the floor or, if greater, the average square of the distance to the new mean over all visits to s. |
| HmmBaumWelch.NewInitialIsShare | shared/hmm_regime.py:190-194 | The new initial entry is the share of the visits to s made at time 0; it is the posterior of starting in s if and only if gamma[0,s] is 0 or s is visited once in expectation. |
| HmmBaumWelch.NewInitialSum | shared/hmm_regime.py:190-194 | For possible observations whose starting states are all visited at least once, or all at most once: the new initial entries sum to 1 if and only if each starting state is visited exactly once; the sum is on the side the visits say. Impossible observations give 0. |
| HmmBaumWelch.VisitsTotal | shared/hmm_regime.py:188-192 | Expected visits to all states together number the observations. |
| HmmBaumWelch.LongDataShrinksStart | shared/hmm_regime.py:190-194 | With more observations than states, all of them possible starts and visited at least once, the new initial entries sum to less than 1. |
| HmmBaumWelch.UnchangingPosterior | shared/hmm_regime.py:190-194 | When gamma never changes and rules out no state, the new initial entries sum to states over observations, hence to 1 if and only if the two numbers are equal. |
| HmmBaumWelch.NewInitialNotADistribution | shared/hmm_regime.py:82-87 | Two states with a uniform start and a bias to stay, three rising observations: after one step the initial entries sum to two thirds. |
| HmmViterbi.DeltaDominates | shared/hmm_regime.py:260-267 | No state sequence ending in s at t scores above delta[t,s], for any score matrices. |
| HmmViterbi.TiesBreakLow | shared/hmm_regime.py:265-266 | A sequence that equals delta is the back-traced one, or the back-traced one comes first in the order that the first-maximum rule induces. |
| HmmViterbi.BestTraceIsViterbi | shared/hmm_regime.py:268-273 | The back-traced sequence attains the returned score, no sequence scores higher, and it is the first among equals. |
| HmmViterbi.ViterbiUnique | shared/hmm_regime.py:252-273 | At most one pair of sequence and score meets that specification. |
| HmmRegime.ForwardPass | shared/hmm_regime.py:143-161 | The loops that fill alpha and scales in place compute the scaled forward recursion. |
| HmmRegime.BackwardPass | shared/hmm_regime.py:163-176 | The loops that fill beta in place compute the scaled backward recursion. |
| HmmRegime.ForwardBackward | shared/hmm_regime.py:133-179 | Both passes and the sum of logarithms of positive scales. |
| HmmRegime.FillXi | shared/hmm_regime.py:196-212 | The triple loop and in-place division fill xi as specified. |
| HmmRegime.MaximisationStep | shared/hmm_regime.py:181-228 | The array code computes the re-estimated parameters. |
| HmmRegime.FillDelta | shared/hmm_regime.py:253-267 | The nested loops fill delta and psi with the best scores and first back-pointers. |
| HmmRegime.TraceBack | shared/hmm_regime.py:269-272 | Following psi backwards gives the trace. |
| HmmRegime.Viterbi | shared/hmm_regime.py:252-273 | Filling, choosing the last state and tracing back meet the Viterbi specification over all sequences, for the log-scores of the parameters; HmmObservation.ScoreOfPath says what those scores are. |
| HmmObservation.ScoreOfPath | shared/hmm_regime.py:252-267 | A sequence's score is log(initial + 1e-300) of its first state, log(transition + 1e-300) from each state to the next, and the log-density of each row in its state, read off the parameters. |
| HmmObservation.WeightOfPath | shared/hmm_regime.py:137-161 | A sequence's weight, which posteriors and training sum, is the initial entry of its first state, the transition entry from each state to the next, and the density of each row in its state. |
| HmmObservation.LogPdfByCoordinate | shared/hmm_regime.py:118-131 | The log-density is minus half the sum over coordinates of log 2pi, log variance and squared distance over variance, cut off at the least value allowed; a variance that is not positive gives that value. |
| HmmObservation.LogPdfNearer | shared/hmm_regime.py:118-131 | A row no farther from the mean in any coordinate has no smaller density. |
| HmmRegime.VarianceFloorExactly | shared/hmm_regime.py:78 | The floor is a thousandth of the mean of the columns' variances, or 1e-9 if that is greater. |
| Vectors.VarianceByMoments | shared/hmm_regime.py:78 | A column's variance is the mean of its squares less the square of its mean. |
| HmmRegime.TrainedWellFormed | shared/hmm_regime.py:108-116 | After any number of EM steps the model is well formed, and its variances are above the floor after at least one. |
| HmmRegime.GaussianHmm.constructor | shared/hmm_regime.py:52-70 | A new model is unfitted and holds its settings. |
| HmmRegime.GaussianHmm.Fit | shared/hmm_regime.py:72-80 | Fewer than two rows, none included: an error and no change. Otherwise the starting parameters trained up to the first step that changes the log-likelihood by less than the tolerance, or to the limit, and the log-likelihood of the parameters left behind. |
| HmmRegime.GaussianHmm.RunEm | shared/hmm_regime.py:108-116 | Stops at the first step that changes the log-likelihood by less than the tolerance, or at the limit; the log-likelihood returned is that of the final parameters. |
| HmmRegime.GaussianHmm.Posterior | shared/hmm_regime.py:234-240 | Unfitted: an error. Otherwise entry [t][s] is the share of path weight in s at t, and each row is a distribution if and only if the data are possible (else zero). |
| HmmRegime.GaussianHmm.Decode | shared/hmm_regime.py:242-273 | Unfitted: an error. Otherwise a state sequence and its score, in terms of the parameters: start, steps in the direction of time and densities add up to the score returned, no sequence has more, and among equals the first-maximum rule chose it. |
| ExponentialMeans.EwmMeanAgree | signals/indicators.py:82-91 | Exponential means of series that agree on k entries agree on k entries, undefined ones included. |
| ExponentialMeans.EwmMeanWithin | signals/indicators.py:82-91 | Exponential means stay within any bounds of their input. |
| ExponentialMeans.EwmRecurrence | signals/indicators.py:82-91 | Without gaps the mean starts at the first value and takes alpha of each new value and the rest of the mean before. |
| ExponentialMeans.EwmOverGap | signals/indicators.py:82-91 | After a gap the new value meets the old mean with weights alpha and (1 - alpha)^n for the n steps between, normalised; undefined entries themselves change nothing. |
| ExponentialMeans.EwmLags | signals/indicators.py:82-91 | On values that do not fall a mean never exceeds the last value, nor the mean of a greater weight. |
| RollingWindows.RollingAgree | signals/indicators.py:67-79 | A rolling statistic, whatever the function of its window, depends on no later entry. |
| RollingWindows.RollingExactly | signals/indicators.py:67-79 | At position i it is the statistic of the last `period` values, undefined while there are fewer. |
| Indicators.RsiInRange | signals/indicators.py:94-115 | Every defined RSI lies in [0,100]; which end is which is said by the rows that follow. |
| IndicatorMeaning.RsiShare | signals/indicators.py:94-115 | RSI appears at bar `period`. It is the percentage that the smoothed rises of the close have in smoothed rises and falls together, 50 without either; above 50 exactly when the rises are greater. |
| IndicatorMeaning.RsiExtremes | signals/indicators.py:94-115 | RSI is 100 exactly when the close rose at least once so far and never fell, 0 exactly when it fell at least once and never rose, and 50 when it never moved. |
| IndicatorMeaning.RsiMirror | signals/indicators.py:94-115 | RSI of the negated closes is 100 minus RSI. |
| IndicatorMeaning.TrueRangeSpans | signals/indicators.py:151-168 | The true range reaches from the lower of low and previous close to the higher of high and previous close. |
| Indicators.AtrWarmup | signals/indicators.py:171-181 | ATR is undefined for exactly the first `period` bars and never negative. |
| Indicators.AdxInRange | signals/indicators.py:244-284 | Every defined ADX lies in [0,100]. |
| IndicatorMeaning.MovesExactly | signals/indicators.py:260-268 | A bar moves up by the rise of its high when that is positive and beats the fall of its low, down by that fall in the mirrored case, and otherwise not at all. |
| IndicatorMeaning.AdxExactly | signals/indicators.py:244-284 | The range cancels: ADX is the smoothed percentage that the difference of the smoothed moves has in their sum, defined where range and sum are not zero. |
| IndicatorMeaning.AdxOneWay | signals/indicators.py:244-284 | When highs and lows never fall, or never rise, every defined ADX is 100. |
| IndicatorMeaning.AdxMirror | signals/indicators.py:244-284 | Upside down, with highs and lows exchanged and negated, a market has the same true range and the same ADX. |
| IndicatorMeaning.AdxNeeds | signals/indicators.py:244-284 | ADX is undefined until there are twice its period of bars. |
| Indicators.AdxAgree | signals/indicators.py:244-284 | ADX up to a bar depends on no later bar. |
| Indicators.MacdAgree | signals/indicators.py:118-148 | The MACD histogram up to a bar depends on no later bar. |
| IndicatorMeaning.MacdRising | signals/indicators.py:118-148 | The MACD line appears once the slow span is full; while closes never fell it is not negative. |
| IndicatorMeaning.MacdHistogramRising | signals/indicators.py:118-148 | The histogram appears once slow and signal span are full, and is not negative while the line never fell. |
| IndicatorMeaning.EmaOrder | signals/indicators.py:82-91 | On closes that never fall the shorter average is never below the longer one. |
| Indicators.StochasticAgree | signals/indicators.py:215-241 | Both stochastic lines up to a bar depend on no later bar. |
| IndicatorMeaning.StochasticPlace | signals/indicators.py:215-241 | %K times the distance of the highest high and lowest low of the last bars is 100 times the close above that low; undefined exactly when they are equal. |
| IndicatorMeaning.SmoothedPlace | signals/indicators.py:215-241 | %D is the mean of the last %K. |
| Indicators.BollingerAgree | signals/indicators.py:204-212 | Band width up to a bar depends on no later bar, for any square root. |
| IndicatorMeaning.BandDistance | signals/indicators.py:184-212 | Band width times the mean of the last closes is twice the deviations times the root of their variance; undefined while there are too few or their mean is zero. |
| Indicators.SuperAgree | signals/indicators.py:293-378 | Supertrend at a bar depends on no later bar, band crossings included. |
| IndicatorMeaning.BandsAroundMiddle | signals/indicators.py:318-323 | The basic bands lie a multiple of ATR above and below the middle of the bar. |
| IndicatorMeaning.BandsTighten | signals/indicators.py:352-361 | A band that the previous close did not break only tightens; a broken one is set anew. |
| IndicatorMeaning.TrendTurns | signals/indicators.py:362-367 | The trend turns up above the upper band, down below the lower one, and holds between them. |
| IndicatorMeaning.LineTrails | signals/indicators.py:293-378 | While the bands have not crossed, the line is the lower band, not above the close, in an uptrend, and the upper one, not below the close, in a downtrend. |
| IndicatorMeaning.BandsRatchet | signals/indicators.py:293-378 | Over any stretch without a close below it the lower band never falls; without a close above it the upper band never rises. |
| Indicators.Supertrend | signals/indicators.py:293-378 | The index loop computes the band recurrence; line and direction are undefined for exactly the bars before the ATR seed. |
| SwingLevels.PivotsAreSwings | signals/indicators.py:381-432 | Comparing with two shifted rolling windows finds exactly the bars strictly beyond all `lookback` neighbours on both sides, in either direction. |
| SwingLevels.LevelExact | signals/layers.py:162-194 | The pivot shown at bar i (position, confirmation and price) is the latest p with p + lookback <= i that is a swing; none if there is none. |
| SwingLevels.LevelUnique | signals/layers.py:162-194 | That description fixes the level. |
| SwingLevels.LevelAgree | signals/indicators.py:411-432 | Changing bars after i never changes the pivot shown at i, although pivots look forward. |
| SwingLevels.BroadcastPivot | signals/layers.py:162-194 | For position, confirmation or price: overwriting slices pivot by pivot leaves at each bar the attribute of the last pivot confirmed by then. |
| SwingLevels.SwingColumn | signals/layers.py:144-159 | Each of the three columns of a side shows at every bar its attribute of the pivot that description fixes. |
| Layers.BuildFeatures | signals/layers.py:86-159 | Builds every feature column once over the frame. |
| LayerMeaning.FeaturesShown | signals/layers.py:86-159 | From which bar on each column has a reading, by the configured period: averages, RSI, ATR, Supertrend, MACD (34 bars), volume average and band width. |
| LayerMeaning.VolumeAverageIs | signals/indicators.py:287-290 | The volume average times its period is the sum of the last volumes. |
| LayerMeaning.StochasticReads | signals/layers.py:86-159 | The stochastic column is the place of the close in the highs and lows of the last 14 bars. |
| LayerMeaning.StochasticSmoothed | signals/layers.py:86-159 | %D is the mean of the last three %K, where all three are there. |
| LayerMeaning.LevelsShown | signals/layers.py:144-194 | The level columns show at each bar the high (low) of the latest bar that was by then known to be above (below) its neighbours on both sides, and nothing exactly when there is none; said of the bars. |
| LayerMeaning.SupertrendReads | signals/layers.py:86-159 | Supertrend starts upwards at the first bar with an ATR, and points upwards wherever the close is more than three ATR above the middle of its bar. |
| LayerMeaning.SteadyRise | signals/layers.py:283-308 | On a frame whose closes never fall and rise at least once, RSI reads 100, its momentum vote is at most -0.5, and the fast average is not below the slow one. |
| LayerMeaning.SteadyFall | signals/layers.py:283-308 | On a frame whose closes never rise and fall at least once, RSI reads 0 and its momentum vote is at least 0.5. |
| Layers.FeaturesCausal | signals/layers.py:86-159 | Frames that agree on k bars have feature rows that agree on k rows, forward-looking pivots included. |
| Layers.ScoreInRange | signals/layers.py:201-205 | All six layer scores lie in [-1,1]; a layer that abstains scores zero. |
| Layers.ScoreCausal | signals/layers.py:221-606 | All six layer results at a bar depend on no later bar. |
| Layers.TrendFollowsSupertrend | signals/layers.py:221-275 | Where Supertrend is defined, the trend score has its sign and at least half weight. |
| LayerMeaning.TrendExactly | signals/layers.py:221-275 | Evaluable exactly when averages, ADX at its floor or above and a positive ATR are there. The gap of the averages relative to the slow one, times close over twice ATR, clipped; a Supertrend of another sign replaces it, one of its sign is averaged with it. |
| LayerMeaning.ShareUnique | signals/layers.py:201-205 | The clipped share that trend, momentum and volume scores are described by is one number. |
| LayerMeaning.RsiVoteIs | signals/layers.py:296-314 | The RSI vote: one half upwards with the depth below the oversold bound, the mirror image above the overbought bound, the distance from 50 over 50 in between. |
| LayerMeaning.MomentumExactly | signals/layers.py:283-339 | Evaluable exactly when RSI and histogram are there. The score is the mean of the RSI vote, of the histogram's change as a clipped share of 0.2% of the close and, if both lines are there, of plus or minus 0.3 by the stochastic cross. |
| LayerMeaning.VolumeExactly | signals/layers.py:347-387 | Evaluable exactly when there is a positive volume average. Zero below the multiple; otherwise the clipped excess over the average, signed by the direction of the close, in full when volume rises and at 0.6 when not. |
| LayerMeaning.PriceActionExactly | signals/layers.py:395-461 | On a bar with a range the vote is 1 exactly when an engulfing or hammer pattern speaks for a rise and none against, -1 in the mirrored case, and 0 otherwise. |
| LayerMeaning.VolatilityExactly | signals/layers.py:469-513 | Evaluable exactly when ATR lies between the configured shares of a positive close. The vote has the direction of the close, 0.8 in a squeeze and 0.5 otherwise. |
| LayerMeaning.SqueezedExactly | signals/layers.py:501-511 | A squeeze is a width at most the lower quintile of the 40 before it. |
| LayerMeaning.LevelVoteExactly | signals/layers.py:521-578 | Evaluable exactly when ATR is positive and a level is known. The nearer level votes with one less its distance over the reach, 0.3 at least, and zero out of reach: resistance down, support up. |
| Layers.LevelVotesForBounce | signals/layers.py:521-569 | A support within reach and strictly nearer votes at least 0.3 for BUY, a resistance at least as near at least 0.3 for SELL, neither within reach scores zero. |
| SignalModels.LevelsBracketPrice | signals/models.py:385-410 | With a valid configuration and positive ATR: stop < entry < tp1 < tp2 for BUY, reversed for SELL. |
| SignalEngine.WeightedBounded | signals/engine.py:454-490 | The weighted sum is bounded by the weight available. |
| SignalEngine.NormalisedInRange | signals/engine.py:454-490 | The renormalised aggregate lies in [-1,1], whichever layers abstain. |
| SignalEngine.ScoreBarSound | signals/engine.py:430-532 | A scored bar has positive price and ATR, confidence in [threshold,1] equal to its weighted agreement, every mandatory layer on its side and bracketing levels. |
| EngineMeaning.SixLayers | signals/engine.py:454-490 | The aggregate and the weight available are the sums over all six layers, each with its own weight and score, of those that do not abstain. |
| EngineMeaning.ScoreBarExactly | signals/engine.py:430-532 | A bar scores if and only if weight is available, the sum is not negligible and reaches the threshold (explicit, or 0.40, 0.60, 0.75 by mode) relative to it, every mandatory layer has its sign, and close and ATR are positive. The action is the sum's sign; stop and targets lie exactly their multiples of ATR from the close. |
| SignalEngine.ApplySuppression | signals/engine.py:563-601 | The loop over last position and last action is the suppression fold. |
| SignalEngine.SurvivorsWellSpaced | signals/engine.py:563-601 | Kept bars are at least the minimum apart, alternate in action when required, and are among the scored. |
| SignalEngine.SurvivorsGrow | signals/engine.py:563-601 | More scored bars only append: what was kept stays a prefix. |
| SignalEngine.DroppedIsBlocked | signals/engine.py:563-601 | A scored bar is dropped only when the latest kept bar before it is too near or of the same action. |
| EngineMeaning.KeptExactly | signals/engine.py:269-322 | A bar is kept if and only if it is closed, past the warmup, scores, and the last bar kept before it is far enough away and, when required, of the other action. |
| EngineMeaning.ClosedExactly | signals/engine.py:238-267 | With a clock the closed bars are those whose time has come; without one all, or all but the last when closes must be confirmed. |
| EngineMeaning.WarmupExactly | signals/models.py:245-261 | The warmup is the greatest of the lengths listed. At its last bar averages, RSI, ATR and volume have readings, MACD has one if and only if the warmup is at least 34 bars, and ADX none if it is shorter than twice its period. |
| SignalFrames.PreparedExactly | signals/engine.py:211-233 | From any frame, preparation makes one with strictly ascending close times that keeps for each time the last bar given. |
| SignalFrames.PreparedIsStable | signals/engine.py:211-233 | A frame that is in order already is left as it is. |
| SignalEngine.Compute | signals/engine.py:269-322 | Empty frame: an error. Otherwise, for any order and repetition of bars, the signals of the prepared frame: the kept bars that EngineMeaning.KeptExactly describes, by the scores of LayerMeaning. |
| SignalEngine.NeverRepaints | signals/engine.py:269-322 | Frames with the same bars closed by t1, otherwise arbitrary: the signals of one at t1 are a prefix of the signals of the other at any t2 >= t1. |
| SignalEngine.NeverRepaintsRaw | signals/engine.py:178-322 | The same for frames as they come: it is enough that the last bars given for the times up to t1 are equal. |
| SignalEngine.SameBarsSameSignals | signals/engine.py:269-322 | At one clock, frames with the same closed bars give the same signals. |
| SignalEngine.NoClockDistrustsLastBar | signals/engine.py:238-267 | Without a clock, confirming closes is the same as a clock at the bar before last. |
| SignalEngine.SignalsWellFormed | signals/engine.py:269-322 | Every emitted list: well spaced, actions alternating when required, on closed bars, prices and times of its bars, confidence in [threshold,1], bracketing levels. |
| Ledger.NetMapExact | execution/broker_api.py:120-160 | The map of nets holds exactly the symbols whose signed fills do not cancel, each with its signed sum. |
| Ledger.NetsValueFills | execution/broker_api.py:120-175 | At any marks the nets are worth what the fills are: mark-to-market plus what was spent. |
| Ledger.ReportedNearCharged | execution/broker_api.py:96-108 | Reported commissions are rounded to six places while charged ones are not; over n fills the two differ by at most n half-millionths. |
| Ledger.ReportedExactly | execution/broker_api.py:96-108 | A fill reports the commission it is charged if and only if quantity times price times basis points is a whole number of hundredths; runs of such fills report all. |
| Ledger.SmallFillUnreported | execution/broker_api.py:96-108 | At one basis point, one unit at half a cent is charged half a millionth and reports no commission. |
| PaperBroker.NettingConserves | execution/broker_api.py:120-160 | Opening, averaging, partial closing, closing and flipping: signed sizes add up, absent exactly at zero, and cost goes into the position or is realised. |
| PaperBroker.NettingMoves | execution/broker_api.py:120-160 | Opening and adding gain nothing, adding keeps stops and averages the entry; a smaller opposite order gains the move times its quantity and leaves side, entry and stops; an equal one closes; a larger one gains the move times the old quantity and opens at the fill price with its own stops. |
| PaperBroker.EquityIsLedger | execution/broker_api.py:169-175 | In any account that agrees with its fills, equity is the initial balance less all charged commissions plus signed quantity times (mark - fill price) over all fills. |
| PaperBroker.PositionIsNet | execution/broker_api.py:120-160 | A symbol's position is the signed sum of its fills, absent exactly when that is zero. |
| PaperBroker.FillKeepsAgreement | execution/broker_api.py:80-118 | Agreement with the fills is kept by any accepted order. |
| PaperBroker.PaperBroker.constructor | execution/broker_api.py:51-62 | A new broker agrees with the empty ledger. |
| PaperBroker.PaperBroker.SetPrice | execution/broker_api.py:73-75 | Changes one mark; agreement is kept. |
| PaperBroker.PaperBroker.Submit | execution/broker_api.py:80-118 | No positive price: a rejected fill and no change at all. Otherwise one fill at the limit or mark price, recorded; only its own symbol's position changes, by the five cases of PaperBroker.NettingMoves stated outright, and the balance by the gain less quantity times price times basis points over 10000; agreement with the ledger is kept. |
| PaperBroker.PaperBroker.ApplyToPosition | execution/broker_api.py:120-160 | The branches on the position dictionary open, average, reduce, close or flip the one position and return its gain, case by case. |
| PaperBroker.PaperBroker.Equity | execution/broker_api.py:169-175 | The loop over positions returns what the plain ledger of fills says. |
| OrderManager.ClosingFlattens | execution/order_manager.py:72-85 | The opposite order of the full quantity leaves nothing open and realises the whole profit. |
| OrderManager.OrderManager.Execute | execution/order_manager.py:25-70 | Submits exactly the requests with a direction, positive quantity and consistent stops, with symbol, side, quantity, price and both stops passed on; fills exactly when the limit, or without one the mark, is positive, at that price. Any other request changes nothing, and the error is the first that applies. |
| OrderManager.OrderManager.Close | execution/order_manager.py:72-85 | Nothing exactly when nothing is open; an error exactly when something is and the price is not positive; a filled close removes this position only and moves the balance by its profit less commission. |
| OhlcStore.NewestAbsorbs | data_pipeline/ohlc_store.py:43-50 | The law of the store: forgetting all but the newest N before an update does not change the newest N after it. |
| OhlcStore.NewestOfNewest | data_pipeline/ohlc_store.py:55-68 | The newest `limit` of the newest N are the newest `limit` of everything. |
| OhlcStore.TopKeysCount | data_pipeline/ohlc_store.py:46-49 | Exactly min(N, all) open times are kept. |
| OhlcStore.SuffixIsNewest | data_pipeline/ohlc_store.py:51-67 | The last `limit` of the ascending list are the newest `limit`. |
| OhlcStore.OhlcStore.EvictOldest | data_pipeline/ohlc_store.py:46-49 | Deleting the first of the sorted open times keeps the newest N. |
| OhlcStore.OhlcStore.Upsert | data_pipeline/ohlc_store.py:70-73 | Every bar given is taken. The series then holds at most N bars, ascending, each the one given last for its time over all calls; any time given and not held is older than all of a full N. Other series are untouched. |
| OhlcStore.OhlcStore.Merge | data_pipeline/ohlc_store.py:55-68 | The same, and returns at most `limit` bars of which the same holds, so the newest; everything kept when the limit is absent, not positive or too large. |
| OhlcStore.LatestOfNewest | data_pipeline/ohlc_store.py:55-68 | For every limit, what is returned from the bounded series is what the unbounded history would give. |
| OhlcStore.WrittenExactly | data_pipeline/ohlc_store.py:43-45 | The unbounded history holds a time exactly when some bar given carries it, with the bar at the greatest index carrying it. |
| Plans.EnforceComposesExactly | orchestrator/plans.py:89-116 | For every period length: enforcing at t1 then t2 equals enforcing once at t2 if and only if the plan had not expired by t1 or whole periods lie between; without a period, if and only if it has expired by t2, the period does not start at t2, the times are equal or nothing was used. |
| Plans.EnforceIdempotent | orchestrator/plans.py:89-116 | Enforcing twice at one time is enforcing once. |
| Plans.EnforcedPeriodHoldsNow | orchestrator/plans.py:235-246 | Afterwards now lies in the half-open period, unless the start was in the future. |
| Plans.AdvanceTwice | orchestrator/plans.py:235-246 | Advancing the period start in two steps is advancing once. |
| Plans.CheckAgreesWithConsume | orchestrator/plans.py:143-182 | The read-only check and the consuming call decide alike and give the same reason; a refusal only enforces; a negative count is an error in both. |
| Plans.QuotaSafety | orchestrator/plans.py:124-182 | Over any run of calls at non-decreasing times on one live plan, grants in any UTC day and in any billing period never exceed their limits, whatever the counters held at first. |
| Plans.GrantedExactlyWhenRoom | orchestrator/plans.py:124-182 | From a fresh plan, a call is granted if and only if the grants of its own day and own period leave room for it; a refusal names the daily limit if the day has no room, and otherwise the period's. |
| Plans.ActivatedIsFresh | orchestrator/plans.py:185-198 | Activation gives a fresh plan that has not expired. |
| Plans.ActivationGives | orchestrator/plans.py:185-198 | Free is not sold. Any other plan is the one given, with nothing used, from now on for exactly one billing period; enforcement gives Free from then on. |
| Plans.FirstCallFits | orchestrator/plans.py:124-182 | The first call after a purchase is granted if and only if it fits the daily and the period limit of the plan bought. |
| CircuitBreaker.OutageHolds | shared/circuit_breaker.py:90-96 | Late failures of calls in flight only lengthen an outage. |
| CircuitBreaker.ProbeDecides | shared/circuit_breaker.py:59-96 | One success reopens the way whatever came before; after a trip one more failure shuts it for a whole timeout. |
| CircuitBreaker.RefusedExactly | shared/circuit_breaker.py:59-96 | A call is refused if and only if the last `threshold` completions all failed and the very last is younger than the timeout. |
| CircuitBreaker.CircuitBreaker.State | shared/circuit_breaker.py:59-69 | OPEN exactly when the failures since the last success reach the threshold and the last failure is younger than the timeout; CLOSED exactly when they do not reach it. |
| CircuitBreaker.CircuitBreaker.IsOpen | shared/circuit_breaker.py:77-80 | The refusal the completion history calls for. |
| CircuitBreaker.CircuitBreaker.RecordSuccess | shared/circuit_breaker.py:82-88 | Keeps the refinement and adds one success to the history. |
| CircuitBreaker.CircuitBreaker.RecordFailure | shared/circuit_breaker.py:90-96 | Keeps the refinement and adds one failure to the history. |
| CircuitBreaker.GuardedAgent.Start | agents/base_agent.py:135-136 | With any number of calls in flight, a call is refused exactly when the history of completions says so. |
| CircuitBreaker.GuardedAgent.Complete | agents/base_agent.py:137-144 | A call that raises or whose output does not validate counts as a failure, any other as a success. |
| RateLimits.PruningKeepsCounts | telegram_bot/db.py:761-769 | Pruning does not change any count over a window at least as young as the cutoff. |
| RateLimits.PruneTwice | telegram_bot/db.py:761-769 | Pruning at two non-decreasing cutoffs is pruning at the later one. |
| RateLimits.UsesAreCounted | telegram_bot/db.py:735-745 | The count is the number of uses of that user and command in the interval. |
| RateLimits.PruningDropsOld | telegram_bot/db.py:761-769 | Nothing older than the cutoff survives pruning. |
| RateLimits.EveryWindowWithinLimit | telegram_bot/db.py:720-759 | No closed interval of the window's length holds more admitted uses per user and command than the limit. |
| RateLimits.CommandsPerMinute | telegram_bot/commands.py:51-66 | With the table of limits and its window: no user runs a command more often in any closed minute than its entry says. |
| RateLimits.RateLimiter.CheckRateLimit | telegram_bot/db.py:720-759 | Despite pruning, allowed exactly when the never-pruned log holds fewer than the limit in the trailing window; a refusal records nothing. |
| RateLimits.CommandGate.Admit | telegram_bot/commands.py:508-511 | In front of the commands: admitted exactly when the user's last minute of the command is below its entry in the table; afterwards every closed minute is within it. |
| SignalTable.Database.SaveSignal | telegram_bot/db.py:465-507 | Inserts exactly when the key of symbol, timeframe, bar and action is free; otherwise nothing changes; keys stay unique. |
| SignalTable.LastTimeIsNewest | telegram_bot/db.py:581-589 | The greatest bar time among a pair's rows, None exactly when it has none. |
| SignalTable.CountIsNumber | telegram_bot/db.py:646-654 | The hourly count is the number of the pair's rows sent since then. |
| DeliveryRules.SuppressedExactly | telegram_bot/scanner.py:233-258 | Nothing is withheld if and only if the hour is not quiet, every stored bar of the pair is a whole positive cooldown old, and the last hour's count is under a positive cap. |
| DeliveryRules.DeliveredExactly | telegram_bot/scanner.py:166-204 | The exact condition for sending a signal, automatic or manual; a duplicate is exactly a key in the table, a withheld signal has the pass's reason, and a gated one fails the gate. |
| DeliveryRules.GateExactly | telegram_bot/defaults.py:167-190 | Passes exactly when confident enough, in a band at or above the configured one in any case, or when the configured band is none. |
| DeliveryRules.HourExactly | telegram_bot/scanner.py:337-341 | The hour is that of the UTC day the moment falls in. |
| DeliveryRules.ReasonExactly | telegram_bot/scanner.py:233-258 | The first reason that applies: quiet hour, cooldown with its whole minutes left, hourly cap. |
| DeliveryRules.FirstSignalNotSuppressed | telegram_bot/scanner.py:170-177 | Deciding before recording: a pair's first signal is never withheld outside quiet hours, only gated. |
| DeliveryRules.SentAgainExactlyWhenUnrecorded | telegram_bot/scanner.py:260-276 | Database errors are swallowed: after a delivery the same signal is sent again if and only if the write failed. |
| DeliveryRules.HistoryComplete | telegram_bot/scanner.py:170-178 | Whatever was withheld, a key is in the table exactly when it was there before or a recorded signal of the run carried it. |
| DeliveryRules.SentAtMostOnce | telegram_bot/scanner.py:166-204 | Over any run of passes, overlapping or manual, a recorded signal is never sent again and a stored one never sent. |
| DeliveryRules.CooldownRespected | telegram_bot/scanner.py:244-250 | An automatic delivery at t finds every earlier recorded signal of its pair with bar time at most t - 60·cooldown. |
| DeliveryRules.SpacingBound | telegram_bot/scanner.py:244-250 | Over any run, an automatic delivery comes at least 60·cooldown, less the age its bar had then, after any earlier recorded signal of its pair. |
| DeliveryRules.SpacedUnlessSlot | telegram_bot/scanner.py:233-258 | After an automatic delivery, whatever follows keeps a cooldown of distance from it if and only if no moment within the cooldown is free of quiet hours, cooldown and cap. |
| DeliveryRules.SpacedExactlyWhenPrompt | telegram_bot/scanner.py:244-250 | Without quiet hours or a full cap in between: if and only if the delivery was not sent later than the close of its own bar. That half from promptness to distance needs no such proviso. |
| DeliveryRules.LateBarBreaksSpacing | telegram_bot/scanner.py:244-250 | With the first-run settings of a quarter-hour pair, a feed one bar late gives deliveries at 12:15 and 12:45 under a cooldown of 45 minutes. |
| DeliveryRules.UniqueKept | telegram_bot/db.py:84 | Keys stay unique over any run of passes. |
| DeliveryRules.HourlyCapRespected | telegram_bot/scanner.py:252-256 | In no closed hour does a pair get more recorded automatic deliveries than a positive cap, for overlapping or manual passes and clocks in any order. |
| DeliveryRules.OwnQuietExactly | telegram_bot/scanner.py:241-244 | No automatic delivery of a pair falls in its own quiet hours, over all tables and signals, if and only if every hour of the day among them is a global quiet hour. |
| Scanner.Scanner.Process | telegram_bot/scanner.py:158-204 | One computed signal: duplicate, withheld, gated or delivered, and stored before the outcome is entered. |
| Scanner.Scanner.Scan | telegram_bot/scanner.py:119-221 | Whatever other passes store while this one waits for bars: the table after it is that of all events in order; the result lists are this pass's signals by their decisions; each stored signal is delivered, withheld or gated, one of the three; each pair has exactly the entry its reading calls for, with its error text or its reason, and no other pair has any. |
| Scanner.OwnEventInRun | telegram_bot/scanner.py:147-204 | Each signal of a pass is decided as at its place in the run of all passes' events, so what is proved of runs holds of overlapping passes. |
| LlmRetry.AnswersExactly | shared/llm.py:265-375 | A call answers if and only if some permitted attempt gets a text after transient attempts only, none of which started with the budget spent; the answer is that attempt's content, or its reasoning when the content is empty. |
| LlmRetry.ResultConcludes | shared/llm.py:265-375 | The result is read off the first attempt that stops the call: budget spent before it, the text of its reply, or the error for its status, malformed body or empty texts; or the last reason and status once tries are used up. |
| LlmRetry.MadeExactly | shared/llm.py:277-301 | An attempt is made if and only if it is permitted, all before it were transient and none, itself included, found the budget spent. |
| LlmRetry.RetriesExactly | shared/llm.py:303-367 | Retries are the attempts made that were transient and not the last permitted. |
| LlmRetry.RateLimitsAreCounted | shared/llm.py:303-306 | The rate-limit counter is the number of replies with status 429. |
| LlmRetry.TimeoutsAreCounted | shared/llm.py:344-351 | The timeout counter is the number of attempts that timed out. |
| LlmRetry.ElapsedBound | shared/llm.py:277-383 | With attempts no longer than the timeout, a call lasts at most (R+1)·timeout + 0.75·R·(R+1), budget or not. |
| LlmRetry.BudgetBound | shared/llm.py:269-296 | A positive budget is overrun by less than one timeout; a budget that is not positive allows no attempt. |
| LlmRetry.CallBalances | shared/llm.py:277-375 | attempts = retries + 1 - budget_exhausted if and only if the number of retries is not negative; failures is 1 exactly when LLMError is raised. |
| LlmCalls.InterleavingsBalance | shared/llm.py:277-375 | Over every interleaving of any number of calls on the shared counters: attempts = retries + calls finished + attempts in flight - budget_exhausted, if and only if no call had a negative number of retries; failures counts exactly the calls that raised LLMError; a finished call has answered, failed so, or escaped by another exception, which no counter shows. |
| LlmRetry.ReasonIsLastSet | shared/llm.py:303-361 | The remembered reason is that of the last attempt that was a 429, a timeout or a transport failure. |
| LlmRetry.ReasonIsLastAttempts | shared/llm.py:303-375 | A call that uses up its tries reports its last attempt's own reason if and only if that attempt set one or none before it did; likewise for the status. |
| LlmRetry.ReasonCanBeStale | shared/llm.py:303-324 | A call that ends on status 503 can report itself rate limited. |
| LlmCalls.LlmCall.EnterLoop | shared/llm.py:277-298 | Head of the loop: gives up, finds the budget spent or sends, and counts it; what other calls have counted is untouched. |
| LlmCalls.LlmCall.OnReply | shared/llm.py:303-367 | From a reply to the next wait or to the end, counting each case; what other calls have counted is untouched. |
| LlmCalls.LlmClient.AttemptLoop | shared/llm.py:265-375 | Whatever other calls add to the counters during its waits, the result is the one the first stopping attempt calls for, stated on its reply: content before reasoning, or the error of its own kind; the loop adds its own share to the counters and takes the time of its attempts and pauses. |
| LlmCalls.LlmClient.Pause | shared/llm.py:377-383 | Sleeps 1.5 seconds times the attempt number, clipped to the budget that remains. |
| KeyLevels.SwingPivots | orchestrator/zenmux_analysis.py:228-245 | One walk collects exactly the strict fractal highs and lows, in order. |
| KeyLevels.GroupsCluster | orchestrator/zenmux_analysis.py:255-266 | The groups join to the sorted list; neighbours in a group are within the tolerance, consecutive groups further apart. |
| KeyLevels.ClusteringUnique | orchestrator/zenmux_analysis.py:255-266 | No other division of the sorted list does that. |
| KeyLevels.ClusterLevels | orchestrator/zenmux_analysis.py:248-267 | The walk with an open bucket returns mean and size of exactly those groups. |
| KeyLevels.TouchesConserved | orchestrator/zenmux_analysis.py:248-267 | Touches sum to the number of pivots. |
| KeyLevels.ClustersApart | orchestrator/zenmux_analysis.py:248-267 | Members of different clusters, and their levels, are more than the tolerance apart, so levels strictly increase. |
| KeyLevels.LevelWithin | orchestrator/zenmux_analysis.py:264-266 | A level lies between its lowest and highest member. |
| KeyLevels.LevelIsMean | orchestrator/zenmux_analysis.py:264-266 | A level times its touches is the sum of its members. |
| KeyLevels.BestExactly | orchestrator/zenmux_analysis.py:286-292 | The choice is on its side of the close, has the most touches and is the nearest on ties; none exactly when that side is empty. |
| KeyLevels.PickLevels | orchestrator/zenmux_analysis.py:270-306 | support < close < resistance for every input; each is the best cluster of its side, or one span from the close when there is none; the span is a positive ATR, or else 0.1% of the close and at least 0.5. |
| KeyLevels.KeyLevelUnique | orchestrator/zenmux_analysis.py:289-297 | Those rules leave one level. |

## Left out

- Floating-point rounding, NaN and infinities: values are reals, undefined ones `None`; a guard that only rounding can trigger is kept in the code but never fires.
- Real `exp`, `log` and square root, Gaussian normalisation and EM likelihood monotonicity: they are parameters, assumed at most non-negative or multiplicative where a member says so.
- `GaussianHMM._initialise`: its random draw is the argument of `Fit`. `HMMRegimeDetector.detect`, its restarts and labels, and `build_regime_features`.
- HmmRegime.GaussianHmm.Fit: takes rows of one width; `observation_values` and its dropping of undefined rows come before it. Empty data, on which the original fails with an index error, are not passed to `Posterior` and `Decode`; `Fit` takes them.
- SignalFrames.PreparedExactly: sorts stably, so that repeated times keep their order; the library's sort promises that only for frames already sorted. Time zones and missing columns are absent.
- `compute_latest`, `evaluate_bar`, reason strings, labels and feature columns no layer reads.
- SignalEngine.NeverRepaints: fixes the left edge of the frame; exponential means change when a fetch window slides.
- Layers.BuildFeatures: quantile and square root are parameters (`Numerics`) that read only the slice passed to them; a volume multiplier within one billionth of one is saturated where the original would divide by zero.
- `telegram_bot/engine.py` and `telegram_bot/layers.py`: a second scorer that cuts the frame first. The scanner model takes its signals as given.
- PaperBroker.PaperBroker.Submit: order quantities are positive, as the order schema demands; the order's time stamps, `cancel` and `UnsupportedBroker` are absent.
- Ticker case folding covers ASCII letters only.
- Plans.EnforceComposesExactly: user identity, prices and status texts are absent, and a period is a whole number of time units, so the float quotient of the original is exact here.
- Plans.QuotaSafety: no activation or expiry within the run, and a positive billing period.
- CircuitBreaker.GuardedAgent.Complete: an operation's own effects are not modelled; a cancelled call leaves without a completion.
- RateLimits.RateLimiter.CheckRateLimit: one window length and one limit per command, and a clock that does not go back; `clear_rate_limits` is absent.
- DeliveryRules.HourlyCapRespected: counts the deliveries whose write succeeded; see `DeliveryRules.SentAgainExactlyWhenUnrecorded` for what happens otherwise.
- Scanner.Scanner.Scan: pair selection, confluence, order flow, outcome resolution and exceptions other than the two the pass catches.
- LlmCalls.LlmClient.AttemptLoop: time passes only in attempts and pauses, which last exactly as long as asked; token accounting, the concurrency limiter, JSON extraction and error chaining are absent, and texts come stripped.
- LlmRetry.BudgetBound: assumes that no attempt outlasts the client's timeout; the HTTP library applies it to each phase of a request, so a slowly trickling reply can take longer.
- KeyLevels.SwingPivots: bars are compared by position, where the original compares object identity.
- `_ema`, `_rsi`, `_atr`, `resample` and the structure text of the key-level analysis: easy beside the clustering.
- HTTP, WebSocket, Redis, Celery, Telegram, routes, email, payments, templates, logging, community toggles, billing and access stores.
