# kanon-api core, modelled in Dafny

This project models the calculation core of kanon-api, a web service for
historical astronomy. The model covers six parts:

- The sexagesimal expression evaluator. It removes spaces, collapses sign
  runs and splits at operators.
- The computation of mean motions from day counts, written in sexagesimal
  digits. There are two variants: the current one and an older one.
- The astronomical table classes:
  - the celestial bodies and the apogee computation;
  - oblique ascension tables, interpolated between sampled latitudes, and
    their reverse lookup;
  - the right ascension table;
  - the table set.
- The true positions of the Sun (current and older variant) and the Moon.
- The ascendant and the four house-division methods.
- The model-fitting request layer: validation, table filling and the pre- and
  post-processing of a parameter estimation.

Angles are exact reals. Python's `x % 360` is `Angles.Mod360`, which is
floor-based. `x >> k` on sexagesimal numbers is division by 60^k. Astronomical
tables are function values: a body's table is `real -> real` and a mean motion
is `Days -> real`. The oblique and right ascension tables are data, a
`Table(index, values)`. Their lookup `HTable.get` is passed in as a parameter,
because `reverse_get` blends value columns and reverses the table before
looking it up.

The evaluator tries the operators one at a time, in the order `+ - * /`. It
splits at the first occurrence of the first one present, so a `-` before a
`+` does not split first (kanon_api/core/calculations/parser.py:26-34).

## Model

| member | source | states |
|---|---|---|
| Parser.RemoveSpaces | kanon_api/core/calculations/parser.py:21 | no space is left and the text never grows |
| Parser.RemoveSpacesKeeps | kanon_api/core/calculations/parser.py:21 | every character other than a space is kept, as often as it occurs, and every space is gone |
| Parser.RemoveSpacesAppend | kanon_api/core/calculations/parser.py:21 | removing spaces distributes over concatenation, so the other characters keep their order |
| Parser.SignRunLengthSpec | kanon_api/core/calculations/parser.py:16 | the run measured is a maximal run of `+`/`-` |
| Parser.NormalizeSigns | kanon_api/core/calculations/parser.py:20-25 | the loop over the sign runs, each replaced at its first occurrence by `-` for an odd number of minus signs and by `+` otherwise, yields exactly Collapse of the space-free text |
| Parser.ReplaceAt | kanon_api/core/calculations/parser.py:25 | `replace(s, r, 1)` with the first match at position \|u\| gives u + r' + v |
| Parser.FindAfterPrefix | kanon_api/core/calculations/parser.py:25 | when no match starts inside u, the first match is the one right after u |
| Parser.CollapseNoAdjacent | kanon_api/core/calculations/parser.py:22-25 | after collapsing no two signs are adjacent, and a non-sign first character is kept |
| Parser.CollapseMinusParity | kanon_api/core/calculations/parser.py:24-25 | collapsing keeps the parity of the number of `-` signs |
| Parser.CollapseIdempotent | kanon_api/core/calculations/parser.py:22-25 | collapsing twice equals collapsing once |
| Parser.NormalizeIdempotent | kanon_api/core/calculations/parser.py:20-25 | normalising is idempotent, and evaluating normalised text gives the same result as evaluating the raw text |
| Parser.FirstOperator | kanon_api/core/calculations/parser.py:26-27 | the operator returned occurs in the text; None exactly when the text holds none of `+ - * /` |
| Parser.IndexOf | kanon_api/core/calculations/parser.py:28 | `split(token, 1)` cuts at the first occurrence: the character there is the token, and no token occurs before it |
| Parser.IntegerDigits | kanon_api/core/calculations/parser.py:37 | the only failure is `int("")`, a ValueError |
| Parser.LiteralValue | kanon_api/core/calculations/parser.py:35-40 | converting a matching literal fails only with ValueError |
| Parser.LiteralValueFails | kanon_api/core/calculations/parser.py:35-40 | a matching literal fails to convert exactly when one of its integer groups is empty (`int("")`) |
| Parser.IntegerDigitsGroups | kanon_api/core/calculations/parser.py:37 | the integer groups convert exactly when none is empty, and then each group, in order, to its decimal value |
| Parser.FractionDigitsAppend | kanon_api/core/calculations/parser.py:38 | the fraction groups convert group by group: converting a concatenation concatenates the conversions |
| Parser.FractionDigitsDropsEmpty | kanon_api/core/calculations/parser.py:38 | an empty fraction group is dropped wherever it stands (`if n`) |
| Parser.LiteralInteger | kanon_api/core/calculations/parser.py:35-40 | an integer literal `d` matches BRMATCHER and denotes its decimal value |
| Parser.LiteralTwoGroups | kanon_api/core/calculations/parser.py:35-40 | `d;f,g` matches BRMATCHER and denotes d + f/60 + g/3600; with f empty the group is dropped and it denotes d + g/60 |
| Parser.LiteralEmptyIntegerGroup | kanon_api/core/calculations/parser.py:37 | `,d` matches BRMATCHER, but its empty integer group fails `int("")` with ValueError |
| Parser.EmptyNotLiteral | kanon_api/core/calculations/parser.py:14 | the empty text does not match BRMATCHER |
| Parser.LiteralText | kanon_api/core/calculations/parser.py:35-40 | `d;f` with digit groups d and f matches BRMATCHER, holds no operator, and converts to its sexagesimal value |
| Parser.Apply | kanon_api/core/calculations/parser.py:34 | `op(parse(a), parse(b))`: a failure of the left operand comes first, then one of the right; the only failure of its own is a division by zero |
| Parser.Parse | kanon_api/core/calculations/parser.py:19-41 | every syntax error carries the message prefix `Invalid syntax : ` |
| Parser.ParseLiteral | kanon_api/core/calculations/parser.py:35-40 | a literal `d;f` evaluates to its sexagesimal value, whatever the trace |
| Parser.ParseTraceIrrelevant | kanon_api/core/calculations/parser.py:20 | on text that is already normal and holds an operator, the trace does not change the result |
| Parser.ParseSplitFirst | kanon_api/core/calculations/parser.py:26-34 | when op is the first operator tried that occurs, the text is split at the first op and both halves are evaluated with the text as trace |
| Parser.ParseMinusSplit | kanon_api/core/calculations/parser.py:26-34 | without a `+`, the text is split at its first `-` |
| Parser.ParseLeadingMinus | kanon_api/core/calculations/parser.py:29-31 | `-a` evaluates to the negation of a |
| Parser.ParseLeadingProduct | kanon_api/core/calculations/parser.py:26-41 | a `*` or `/` with no left operand is a syntax error that reports the text being split |
| Parser.ParseSubtractionChain | kanon_api/core/calculations/parser.py:26-34 | `a-b-c` evaluates as a - (b - c) |
| Parser.SubtractionChainAsWritten | kanon_api/core/calculations/parser.py:26-34 | with operand values x, y, z, `a-b-c` evaluates to x - y + z |
| Parser.DivisionChain | kanon_api/core/calculations/parser.py:26-34 | `a/b/c` evaluates as a / (b / c) |
| Parser.DivisionChainAsWritten | kanon_api/core/calculations/parser.py:26-34 | with operand values x, y, z (y and z non-zero), `a/b/c` evaluates to x / (y / z) |
| Parser.LastIndexOf | kanon_api/core/calculations/parser.py:28 | the corrected split point: the character there is the token, and no token occurs after it |
| Parser.ParseLeft | kanon_api/core/calculations/parser.py:19-41 | the corrected evaluator is `parse` with `-` and `/` split at their last occurrence; every syntax error still carries the prefix |
| Parser.SubtractionChainLeft | kanon_api/core/calculations/parser.py:26-34 | the corrected evaluator reads `a-b-c` as (a - b) - c |
| Parser.SubtractionChainCorrected | kanon_api/core/calculations/parser.py:26-34 | with operand values x, y, z, the corrected evaluator gives x - y - z |
| Parser.DivisionChainLeft | kanon_api/core/calculations/parser.py:26-34 | the corrected evaluator reads `a/b/c` as (a / b) / c |
| Parser.DivisionChainCorrected | kanon_api/core/calculations/parser.py:26-34 | with operand values x, y, z (y and z non-zero), the corrected evaluator gives x / y / z |
| Parser.OperandValue | kanon_api/core/calculations/parser.py:35-40 | an operator-free literal evaluates to its value under both evaluators, whatever the trace |
| Parser.ParseLeadingPlus | kanon_api/core/calculations/parser.py:32-33 | `+a` evaluates as a, with `+a` as a's trace |
| Parser.ParseNonLiteral | kanon_api/core/calculations/parser.py:35-41 | an operator-free text that BRMATCHER rejects is a syntax error naming the trace, or the text itself when there is no trace |
| Parser.ParseSameNormal | kanon_api/core/calculations/parser.py:20-25 | two texts with the same normal form (spaces removed, sign runs collapsed) evaluate alike |
| Parser.ParseIgnoresSpaces | kanon_api/core/calculations/parser.py:20-21 | a text evaluates exactly as its space-free form |
| Parser.NormalizeRun | kanon_api/core/calculations/parser.py:22-25 | a sign run between two unsigned operands becomes the one sign the parity of its `-` count gives |
| Parser.ParseTopSplit | kanon_api/core/calculations/parser.py:26-34 | unsigned, space-free `a op b`, with op the first operator tried that occurs, splits at op, both sides evaluated with the text as trace |
| Parser.ParseSpaced | kanon_api/core/calculations/parser.py:20-34 | `a op b` written with spaces evaluates as op applied to a and b |
| Parser.ParseSpacedRun | kanon_api/core/calculations/parser.py:20-34 | `a r b` with a sign run r evaluates as the sign r collapses to, applied to a and b |
| Parser.ParseProduct | kanon_api/core/calculations/parser.py:26-34 | inside a trace, `a*b` or `a/b` of unsigned operands splits at its operator |
| Parser.ParseSumOfProduct | kanon_api/core/calculations/parser.py:26-34 | in `a+b*c` (or `a+b/c`) the `+` is split first, so the product is formed first |
| Parser.ParseSpacedProductInSum | kanon_api/core/calculations/parser.py:20-34 | `a + b * c` written with spaces is a + (b * c) |
| Parser.ParseSpacedProductThenSum | kanon_api/core/calculations/parser.py:20-34 | `a * b + c` written with spaces is (a * b) + c |
| Parser.ParseSpacedLeadingPlus | kanon_api/core/calculations/parser.py:20-34 | `+a - b` drops the leading `+` and evaluates to a - b |
| Parser.ExampleLiteral | kanon_api/core/calculations/tests/test_parser.py:10 | `1;2` evaluates to 1;2 |
| Parser.ExampleSum | kanon_api/core/calculations/tests/test_parser.py:11 | `1;2 + 3` evaluates to 4;2 |
| Parser.ExampleLeadingPlus | kanon_api/core/calculations/tests/test_parser.py:12 | `+4;2 - 3` evaluates to 1;2 |
| Parser.ExampleDifference | kanon_api/core/calculations/tests/test_parser.py:13 | `0;10 - 3` evaluates to -2;50 |
| Parser.ExampleDoubleMinus | kanon_api/core/calculations/tests/test_parser.py:14 | `1;2 -- 3;1` evaluates to 4;3 |
| Parser.ExampleMixedRun | kanon_api/core/calculations/tests/test_parser.py:15 | `1;2 --+ 3;1` evaluates to 4;3 |
| Parser.ExampleTwoGroupsSum | kanon_api/core/calculations/tests/test_parser.py:16 | `1;2,10 + 3;1` evaluates to 4;3,10 |
| Parser.ExampleProduct | kanon_api/core/calculations/tests/test_parser.py:17 | `1;2 * 2` evaluates to 2;4 |
| Parser.ExampleQuotient | kanon_api/core/calculations/tests/test_parser.py:18 | `2;2 / 2` evaluates to 1;1 |
| Parser.ExampleQuotientThenSum | kanon_api/core/calculations/tests/test_parser.py:19 | `2;2 / 2 + 1` evaluates to 2;1 |
| Parser.ExampleProductInSum | kanon_api/core/calculations/tests/test_parser.py:20 | `1;1 + 3 * 1;1` evaluates to 4;4 |
| Parser.ExampleNegative | kanon_api/core/calculations/tests/test_parser.py:21 | `-1;1` evaluates to -1;1 |
| Parser.ExampleLetter | kanon_api/core/calculations/tests/test_parser.py:22 | `1;1a + 3 * 1;1` is a syntax error, reported with the whole normalised text `1;1a+3*1;1` |
| Parser.ExampleLeadingStar | kanon_api/core/calculations/tests/test_parser.py:23 | `1;1 + *3 * 1;1` is a syntax error, reported with `*3*1;1` |
| Parser.ExampleStarSlash | kanon_api/core/calculations/tests/test_parser.py:24 | `1;1 + 3 */ 1;1` is a syntax error, reported with `/1;1` |
| Angles.Mod360 | kanon_api/core/ephemerides/utils.py:24 | the reduction lies in [0, 360) |
| Angles.ShiftedSumDigit | kanon_api/core/ephemerides/utils.py:21-23 | in the accumulated sum, digit i contributes exactly its table value shifted i + base places |
| CoreUtils.PositionFromTable | kanon_api/core/ephemerides/utils.py:14-25 | the loop's result is the radix plus every digit's shifted table value, reduced mod 360, and it lies in [0, 360) |
| CoreUtils.PositionNoDigits | kanon_api/core/ephemerides/utils.py:21-24 | with no digits the position is the radix mod 360 |
| CoreUtils.PositionDigit | kanon_api/core/ephemerides/utils.py:22-23 | digit i is shifted (i + 4 - len) + zodiac_offset places |
| CoreUtils.PositionLastDigit | kanon_api/core/ephemerides/utils.py:23 | the units digit is always shifted 3 + zodiac_offset places |
| CoreUtils.PositionLeadingDigit | kanon_api/core/ephemerides/utils.py:23 | a new leading digit adds one term and leaves every other digit's shift unchanged |
| CoreUtils.MeanMotion | kanon_api/core/ephemerides/utils.py:28-35 | the mean motion closure always yields an angle in [0, 360) |
| LegacyUtils.PositionFromTable | kanon_api/ephemerides/utils.py:14-24 | the loop's result is the older position rule, and it lies in [0, 360) |
| LegacyUtils.PositionNoDigits | kanon_api/ephemerides/utils.py:20-23 | with no digits the position is the radix mod 360 |
| LegacyUtils.PositionDigit | kanon_api/ephemerides/utils.py:21-22 | digit i is shifted i + zodiac_offset places |
| LegacyUtils.PositionTrailingDigit | kanon_api/ephemerides/utils.py:22 | a new trailing digit adds one term and leaves every other digit's shift unchanged |
| LegacyUtils.AgreesWithCore | kanon_api/ephemerides/utils.py:22 | the current rule equals the older one with its offset moved by 4 - len; the two agree on four-digit day counts |
| LegacyUtils.MeanMotion | kanon_api/ephemerides/utils.py:27-34 | the mean motion closure always yields an angle in [0, 360) |
| TableClasses.ReverseTable | kanon_api/core/ephemerides/table_classes.py:162-163 | the reversed table is indexed by the value column and holds the old index as its values |
| TableClasses.Min | kanon_api/core/ephemerides/table_classes.py:175 | `min(tab)` is a key, and no key is smaller |
| TableClasses.Max | kanon_api/core/ephemerides/table_classes.py:176 | `max(tab)` is a key, and no key is larger |
| TableClasses.FindIndex | kanon_api/core/ephemerides/table_classes.py:170-186 | the result is None exactly for an empty table map (where `min` raises); the keys returned are sampled latitudes |
| TableClasses.FindIndexSampled | kanon_api/core/ephemerides/table_classes.py:174 | a sampled latitude is returned unblended |
| TableClasses.FindIndexBelow | kanon_api/core/ephemerides/table_classes.py:175 | below every key, the answer is clamped to the least key |
| TableClasses.FindIndexAbove | kanon_api/core/ephemerides/table_classes.py:176 | above every key, the answer is clamped to the greatest key |
| TableClasses.FindIndexBlendsIff | kanon_api/core/ephemerides/table_classes.py:173-178 | there is no upper bracket exactly when the latitude is sampled or outside the sampled range |
| TableClasses.FindIndexBetween | kanon_api/core/ephemerides/table_classes.py:180-186 | inside the range, lower and upper are the nearest keys on each side with no key between them, the ratio is (lat - lower) / (upper - lower), and it lies strictly between 0 and 1 |
| TableClasses.FindIndexBracket | kanon_api/core/ephemerides/table_classes.py:180-186 | two keys with no key between them are exactly the bracket returned |
| TableClasses.RatioInside | kanon_api/core/ephemerides/table_classes.py:184 | the ratio lies strictly between 0 and 1 |
| TableClasses.Get | kanon_api/core/ephemerides/table_classes.py:188-200 | the result is None exactly for an empty table map |
| TableClasses.GetUnblended | kanon_api/core/ephemerides/table_classes.py:194-195 | with no upper bracket, the result is the single table's lookup |
| TableClasses.GetSampled | kanon_api/core/ephemerides/table_classes.py:194-195 | at a sampled latitude, the result is the lookup in that latitude's table |
| TableClasses.GetClampAbove | kanon_api/core/ephemerides/table_classes.py:176 | every latitude above the sampled range gives the same result |
| TableClasses.GetClampBelow | kanon_api/core/ephemerides/table_classes.py:175 | a latitude below the range gives the result at the least sampled latitude |
| TableClasses.GetBetween | kanon_api/core/ephemerides/table_classes.py:197-200 | a blended result lies between the two bracketing lookups |
| TableClasses.BlendBetween | kanon_api/core/ephemerides/table_classes.py:200 | `lower + ratio * (upper - lower)` with a ratio in [0, 1] lies between lower and upper |
| TableClasses.Blend | kanon_api/core/ephemerides/table_classes.py:214-218 | the blended copy keeps the lower table's index and length; the columns must have equal length |
| TableClasses.BlendValuesBetween | kanon_api/core/ephemerides/table_classes.py:218 | each blended value lies between the two tables' values in that row |
| TableClasses.ReverseGet | kanon_api/core/ephemerides/table_classes.py:202-220 | the copy-and-update procedure returns exactly ReverseLookup: the reversed single table at a sampled or clamped latitude, the reversed blend of the bracketing tables otherwise |
| TableClasses.BlendCopy | kanon_api/core/ephemerides/table_classes.py:214-218 | updating the copied value column in place, row by row, produces exactly the blended table |
| TableClasses.ReverseLookupSampled | kanon_api/core/ephemerides/table_classes.py:208-209 | at a sampled latitude, the result is the lookup in the reversed table |
| TableClasses.GetMatchesBlend | kanon_api/core/ephemerides/table_classes.py:197-200 | at an index row, `get` at a latitude between two samples equals the blended table's value in that row, so the forward and reverse interpolations use the same table |
| TableClasses.RaGet | kanon_api/core/ephemerides/table_classes.py:228-229 | the right ascension lies in [0, 360) |
| TableClasses.RaReverseGet | kanon_api/core/ephemerides/table_classes.py:231-232 | the longitude lies in [0, 360) |
| TableClasses.RaRoundTrip | kanon_api/core/ephemerides/table_classes.py:223-232 | reverse_get undoes get (up to mod 360) when the reversed table inverts the table on [0, 360) and commutes with a half turn |
| TableClasses.Attr | kanon_api/core/ephemerides/table_classes.py:150-151 | a body's own attribute always wins |
| TableClasses.InferiorFallback | kanon_api/core/ephemerides/table_classes.py:150-151 | an inferior planet lacking an attribute takes the Sun's |
| TableClasses.NoFallbackOtherwise | kanon_api/core/ephemerides/table_classes.py:59-110 | other bodies have no fallback |
| TableClasses.InferiorUsesSunEquation | kanon_api/core/ephemerides/table_classes.py:150-151 | Venus and Mercury use the Sun's equation table |
| TableClasses.GetApogee | kanon_api/core/ephemerides/table_classes.py:70-78 | the apogee exists exactly when the body has an apogee radix, directly or through the Sun; it is the fixed stars' mean position, plus the access-and-recess equation at the access-and-recess mean position, plus that radix |
| TableClasses.SunApogee | kanon_api/core/ephemerides/table_classes.py:70-78 | the Sun's apogee uses its own radix |
| TableClasses.InferiorApogeeIsSun | kanon_api/core/ephemerides/table_classes.py:150-151 | an inferior planet without a radix has the Sun's apogee |
| TableClasses.SuperiorWithoutRadix | kanon_api/core/ephemerides/table_classes.py:67-68 | a superior planet without a radix has no apogee (AttributeError) |
| TableClasses.Call | kanon_api/core/ephemerides/table_classes.py:257-258 | a component is found exactly for the ten class names the table set defines |
| TableClasses.CallPlanetKinds | kanon_api/core/ephemerides/table_classes.py:246-255 | Sun, Mars, Jupiter, Saturn, Venus and Mercury resolve to bodies of their own kind |
| Sun.SunApogeeRadixValue | kanon_api/core/ephemerides/sun.py:9 | 1,11;25,23 is 71 + 25/60 + 23/3600 degrees |
| Sun.SunStages | kanon_api/core/ephemerides/sun.py:12-29 | the mean Sun is the Sun's mean motion; the apogee is the fixed stars' position plus the radix; the mean argument and the true position lie in [0, 360) and are congruent to mean Sun - apogee and mean Sun - equation; the equation is read at the mean argument |
| Sun.SunTruePos | kanon_api/core/ephemerides/sun.py:12-29 | the true position lies in [0, 360) |
| Sun.SunTruePosNoWrap | kanon_api/core/ephemerides/sun.py:27 | when mean Sun - equation is already in [0, 360), the true position is exactly that difference |
| Sun.SunApogeeAsTableSet | kanon_api/core/ephemerides/sun.py:21 | the Sun's `get_apogee` is the apogee of this computation |
| LegacySun.WrapSub | kanon_api/ephemerides/sun.py:34-38 | 360 is added exactly when the minuend is below the subtrahend |
| LegacySun.WrapSubCongruent | kanon_api/ephemerides/sun.py:34-38 | the wrapped difference is congruent to the plain difference mod 360 |
| LegacySun.WrapSubIsMod | kanon_api/ephemerides/sun.py:34-38 | for operands in [0, 360) the wrapped difference is the mod-360 difference |
| LegacySun.LegacySunStages | kanon_api/ephemerides/sun.py:13-46 | each stage reads the table with its own id, radix and zodiac offset; the apogee is fixed stars plus equation plus radix; the mean argument and true position are the wrapped differences, congruent to the plain ones |
| LegacySun.AgreesWithModVersion | kanon_api/ephemerides/sun.py:34-46 | when apogee and equation lie in [0, 360), the older computation equals the mod-360 one |
| LegacySun.ApogeePastTurn | kanon_api/ephemerides/sun.py:34-38 | an apogee above 360 gives a negative mean argument (-30 where mod 360 gives 330) |
| TruePosition.MoonTruePos | kanon_api/core/ephemerides/true_position.py:32-49 | the mean Moon, mean Sun and mean argument are the Moon's mean motion, the Sun's mean motion and the Moon's mean argument at the day count; the moon centre is twice mean Moon - mean Sun; the centre equation and minuta are read at it; the true argument is the mean argument plus the centre equation on the near side and minus 1 on the far side, as written; the argument equation is read at the true argument |
| TruePosition.MoonCenterUnreduced | kanon_api/core/ephemerides/true_position.py:39 | the moon centre is not reduced mod 360: it ranges over (-720, 720) |
| TruePosition.FarSideIgnoresCenterEquation | kanon_api/core/ephemerides/true_position.py:45 | on the far side the true argument does not depend on the centre equation table |
| TruePosition.FarSideExample | kanon_api/core/ephemerides/true_position.py:45 | mean Moon 100, mean Sun 0 and centre equation 5 put the true argument 1 below the mean argument as written, and 5 below it as intended |
| TruePosition.MoonTruePosCorrected | kanon_api/core/ephemerides/true_position.py:32-49 | the same stages as `moon_true_pos` at the day count: the true argument is the mean argument plus the centre equation on the near side and minus it on the far side |
| TruePosition.CorrectedMovesByCenterEquation | kanon_api/core/ephemerides/true_position.py:45 | the corrected true argument differs from the mean argument by exactly plus or minus the centre equation |
| TruePosition.CorrectedAgreesIff | kanon_api/core/ephemerides/true_position.py:45 | the two agree exactly on the near side, or when the centre equation is 1 |
| Ascendant.AscensionOf | kanon_api/core/ephemerides/ascendant.py:9-16 | rising and setting are the oblique ascensions of the Sun and of the opposite point; arc and degree lie in [0, 360); None exactly for an empty table map |
| Ascendant.MidpointOfArc | kanon_api/core/ephemerides/ascendant.py:14-16 | the ascension degree is half the diurnal arc past rising and half the arc before setting |
| Ascendant.AscendantOf | kanon_api/core/ephemerides/ascendant.py:8-18 | the ascendant is the reverse oblique ascension of the ascension degree at the same latitude |
| Ascendant.AscendantThroughSun | kanon_api/core/ephemerides/ascendant.py:9 | the day count enters only through the Sun's true position |
| Houses.MethodByName | kanon_api/core/ephemerides/houses.py:126-133 | exactly M1, M2, M5 and M6 are methods |
| Houses.Meth1Arguments | kanon_api/core/ephemerides/houses.py:31-41 | eleven right ascensions, each in [0, 360) |
| Houses.ThirdsOfArc | kanon_api/core/ephemerides/houses.py:31-34 | steps of t and 2t from a start trisect the arc to start + 3t |
| Houses.Meth1Thirds | kanon_api/core/ephemerides/houses.py:31-34 | a1, a2, a3, a0 + 90 are equally spaced, and so are a1, a12, a11, a0 - 90 |
| Houses.Meth1Opposites | kanon_api/core/ephemerides/houses.py:36-41 | a4 to a9 lie half a turn from a10, a11, a12, a1, a2, a3 |
| Houses.Meth1 | kanon_api/core/ephemerides/houses.py:28-52 | twelve cusps: the ascendant, then the reverse right ascension of each argument in order |
| Houses.Meth2Corners | kanon_api/core/ephemerides/houses.py:59-65 | l4, l7, l10 lie in [0, 360) |
| Houses.Quadrant | kanon_api/core/ephemerides/houses.py:67-90 | a quadrant has three cusps |
| Houses.TrisectQuadrant | kanon_api/core/ephemerides/houses.py:67-90 | a quadrant's cusps cut its arc into three equal arcs, each a third of the arc and below 120 |
| Houses.Meth2 | kanon_api/core/ephemerides/houses.py:55-91 | twelve cusps, each in [0, 360) |
| Houses.Meth2Split | kanon_api/core/ephemerides/houses.py:72-90 | the cusps are the four quadrants in order |
| Houses.Meth2Quadrants | kanon_api/core/ephemerides/houses.py:55-91 | cusps 1, 4, 7, 10 are the ascendant, l4, l7, l10, and each quadrant is trisected |
| Houses.Meth5Arguments | kanon_api/core/ephemerides/houses.py:103-104 | eleven right ascensions |
| Houses.Meth5Spacing | kanon_api/core/ephemerides/houses.py:103-104 | cusp k lies 30k degrees of right ascension past a1 |
| Houses.Meth5 | kanon_api/core/ephemerides/houses.py:94-107 | twelve cusps: the ascendant, then the reverse right ascensions |
| Houses.Meth6 | kanon_api/core/ephemerides/houses.py:110-114 | twelve cusps, each in [0, 360) |
| Houses.Meth6Spacing | kanon_api/core/ephemerides/houses.py:110-114 | the first cusp is the ascendant mod 360; consecutive cusps lie 30 apart and opposite cusps 180 apart |
| Houses.HousesOf | kanon_api/core/ephemerides/houses.py:118-124 | None exactly when there is no oblique ascension table; otherwise the chosen method's twelve cusps at a0, the oblique ascension of the ascendant at the latitude, and a1, its right ascension |
| Houses.FirstCusp | kanon_api/core/ephemerides/houses.py:43-114 | M1 and M5 keep the ascendant as first cusp; M2 and M6 reduce it mod 360 |
| Models.TupleText | kanon_api/routes/models.py:75 | Python's text of a tuple is parenthesised |
| Models.TupleTextExamples | kanon_api/routes/models.py:75 | the tuples print as `(50,)` and `(124, 125)` |
| Models.Validate | kanon_api/routes/models.py:53-81 | a request is accepted exactly when it is valid; every rejection is a 400; the checks fire in order: empty arg1, displacement length, empty arg2, parameter set, argument count |
| Models.ValidateMessages | kanon_api/routes/models.py:53-76 | an empty arg1, a wrong-length displacement, an empty arg2 (after the first two checks pass) and a wrong parameter set `(50,)` give their messages |
| Models.OrderedParams | kanon_api/routes/models.py:83-85 | the values of the model's parameters, in the model's order |
| Models.Len | kanon_api/routes/models.py:94-97 | the product of the argument counts with a second argument, the first count otherwise |
| Models.Call | kanon_api/routes/models.py:87-92 | the displaced and remaining arguments are passed on in order, and the entry displacement is added |
| Models.Values | kanon_api/routes/models.py:105 | all parameter values, in order |
| Models.Fill | kanon_api/routes/models.py:103-110 | a null parameter is rejected exactly when some parameter is None; otherwise there is one entry per argument (combination) |
| Models.RowMajor | kanon_api/routes/models.py:109 | every entry index splits into an arg1 and an arg2 position |
| Models.RowMajorIndex | kanon_api/routes/models.py:109 | the entry for row j, column i sits at j * \|arg1\| + i |
| Models.FillOrder | kanon_api/routes/models.py:108-110 | with two arguments, arg2 is the outer loop: entry j * \|arg1\| + i is the model at (arg1[i], arg2[j]) with the parameters; with one argument, entry i is the model at arg1[i] |
| Models.EstimatePrecheck | kanon_api/routes/models.py:118-123 | estimation proceeds exactly when the entry count matches and some parameter is open; a count mismatch is reported first, and with every parameter given the error is "No parameter to estimate" |
| Models.OpenCount | kanon_api/routes/models.py:122 | there are at most as many open slots as slots |
| Models.OpenCountPrefix | kanon_api/routes/models.py:127-130 | a longer prefix has at least as many open slots |
| Models.Filled | kanon_api/routes/models.py:125-130 | the slots can be filled exactly when there are enough fitted values, and filling keeps the length |
| Models.OpenSlotIndex | kanon_api/routes/models.py:128 | an open slot's rank is below the number of open slots |
| Models.FilledFromPass | kanon_api/routes/models.py:125-130 | given values are kept, and the n-th open slot takes the n-th fitted value |
| Models.FillSlots | kanon_api/routes/models.py:125-130 | the iterator loop returns exactly the filled slots, or None when the iterator runs out (StopIteration) |
| Models.OpenKeys | kanon_api/routes/models.py:144 | one key per open slot |
| Models.OpenKeysMatchSlots | kanon_api/routes/models.py:144-154 | the n-th key is the parameter of the n-th open slot, so `zip(keys, popt)` names each fitted value after the slot it fills |

## Left out

- Table loading and kanon internals are left out: the DISHAS and JSON readers and HTable's interpolating `get`. Tables are uninterpreted functions, or `Table` data with a lookup parameter.
- Sexagesimal numbers are exact reals. The model has no kanon rounding, no `BasedReal` precision and no astropy units. `.value` unit stripping is the identity.
- Floating point is not modelled. `float(k)` on the latitude keys and the float arithmetic `x - lat + lat` in `_find_index` are computed exactly.
- Dates and `get_days` are left out: day counts arrive as their digit sequences.
- The HTTP routes, FastAPI dependencies and the safe resolvers are left out: `build_safe_dict_resolver` is not part of this model, so `MethodByName` and `DefaultMethod` stand in for it.
- `model_path` and its 404 are left out: the model lookup is kanon's `get_model_by_id`.
- `scipy.optimize.curve_fit` and the `optim_model` closures are left out. The returned dictionary is described by `OpenKeysMatchSlots` rather than built.
- Models.OrderedParams: assumes the model's parameter ids are distinct; a repeated id would be merged by the dict comprehension.
- TableClasses.ReverseTable: `HTable.copy(set_index=...)` is taken to swap the index and value columns.
- TableClasses.RaRoundTrip: the round trip holds only under three stated assumptions about the table and `get` (range, inverse on [0, 360), half-turn symmetry). The source guarantees none of them.
- TableClasses.Blend: numpy broadcasting of unequal columns is modelled as a failure (None).
- TableClasses.GetApogee: a missing apogee radix (AttributeError) is None.
- The Sun's apogee radix is always present in the model. An empty radix text would be skipped by the `if apogee_radix:` guard the Sun shares with every planet (kanon_api/core/ephemerides/table_classes.py:67), leaving no attribute; that case is not represented.
- Angles.Mod360: ascendant.py, houses.py, sun.py, true_position.py and table_classes.py import `mod` and `mod360` from `.utils`, but kanon_api/core/ephemerides/utils.py does not define them. The model assumes both are Python's floor-based `% 360`, the reduction `position_from_table` writes out (utils.py:24).
- Parser division by zero raises kanon's error. It is modelled as ZeroDivisionError.
- Parser.Parse: its own ensures only fixes the syntax-error prefix. What it evaluates to is stated case by case by the lemmas: the split lemmas, the leading `-` and `+`, the leading `*` or `/`, the literal and non-literal operands, the sign runs, spacing and chains, and the test examples. There is no single closed-form value.
- LiteralValue: the value of a literal is stated in closed form only for `d`, `d;f` and `d;f,g`. For more groups the lemmas state how the groups are read (IntegerDigitsGroups, FractionDigitsAppend, FractionDigitsDropsEmpty), not a general sum. The range check of kanon's `BasedReal` constructor (every digit group below 60) is not part of this model, so `1;75` denotes 1 + 75/60 here instead of being rejected.
- `moon_true_pos` returns nothing (line 49). The model returns the intermediate stages, because they are all the function computes.
- The copy of `sun_true_pos` in true_position.py (lines 12-29) is the same code as core/ephemerides/sun.py, so it is modelled once, by Sun.SunStages.

## Findings

| source | as written | input that shows it | evidently intended | confidence | as-written member | corrected member |
|---|---|---|---|---|---|---|
| kanon_api/core/ephemerides/true_position.py:45 | `center_eq * 1 if moon_center < 180 else -1`: the conditional binds looser than `*`, so on the far side the true argument is mean_arg - 1 | mean Moon 100, mean Sun 0 (moon centre 200), centre equation 5: true argument = mean argument - 1 | mean_arg - center_eq on the far side | medium, not executed; with astropy units, `moon_center < 180` and `mean_arg + -1` mix a degree quantity with a bare number and may raise before the far-side value matters, which the model's plain reals do not show | TruePosition.FarSideExample | TruePosition.CorrectedMovesByCenterEquation |
| kanon_api/core/calculations/parser.py:28 | `split(token, 1)` cuts at the first `-`, so subtraction chains associate to the right | `3-2-1` gives 3 - (2 - 1) = 2 | left-to-right evaluation, 3 - 2 - 1 = 0 | medium, not executed | Parser.SubtractionChainAsWritten | Parser.SubtractionChainCorrected |
| kanon_api/core/calculations/parser.py:28 | `split(token, 1)` cuts at the first `/`, so division chains associate to the right | `8/2/2` gives 8 / (2 / 2) = 8 | left-to-right evaluation, 8 / 2 / 2 = 2 | medium, not executed | Parser.DivisionChainAsWritten | Parser.DivisionChainCorrected |
