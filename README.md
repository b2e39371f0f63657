# Date and duration tools of the sentence-calculation demo

The repository is a small command-line demo. It hands Portuguese questions
about sentence lengths and dates to an LLM agent. It gives the agent a few
helper tools to call. This project models the four helpers that do integer
and calendar arithmetic, and proves what they promise:

- `converte_para_dias` turns years, months and days into a day count. It uses
  the fixed convention of 365-day years and 30-day months.
- `converte_dias_em_anos_meses_dias_por_extenso` splits a day count back into
  years, months and days. It writes the split out as a Portuguese phrase
  ("2 anos, 2 meses e 1 dia").
- `diferenca_entre_datas` gives the number of days between two `DD-MM-YYYY`
  dates.
- `soma_ou_subtrai_dias_em_data` moves a `DD-MM-YYYY` date forwards (`soma`)
  or backwards (`subtrai`) by a number of days.

Bad input is answered with a fixed Portuguese message: a negative count, a
date that does not read, or an unknown operation. Two failures are not
answered that way, and the model leaves them out (see "## Left out"):

- a moved date that falls outside years 1 to 9999;
- a result too long for Python to turn into text.

The messages live in module `Messages`.

Modules:

- `Messages` (messages.dfy): the four fixed answers.
- `Digits` (digits.dfy): decimal text. `NatToString` is Python's `str` of a
  non-negative integer. `Pad` is a zero-padded `strftime` field. `Value` reads
  digits back, as `strptime` does.
- `Calendar` (calendar.dfy): the proleptic Gregorian calendar of Python's
  `datetime`, years 1 to 9999. `Ordinal` is the day number that `datetime`
  uses for arithmetic, and `FromOrdinal` is its inverse. `NextDay` and
  `DaysAfter` define "k days later" independently, one calendar step at a time.
- `DateText` (datetext.dfy): reading and writing `DD-MM-YYYY`.
- `Durations` (durations.dfy): the two duration tools.
- `DateTools` (datetools.dfy): the two date tools.

The phrase tool builds its answer by successive appends, so it is a method.
It is proved equal to `Extenso`, an independent case-by-case definition of the
phrase. The other three tools are single expressions or branches, so they are
functions.

Two behaviours of the code are worth stating outright:

- In the phrase, ", " always comes before the months and " e " before the
  days, whenever something precedes them. So years and months alone give
  "1 ano, 2 meses", and years and days alone give "1 ano e 15 dias".
  `Extenso` states this rule.
- The message for unreadable dates in `diferenca_entre_datas` names the format
  'YYYY-MM-DD', although the dates are read as `DD-MM-YYYY`. The model keeps
  that text (`Messages.MsgDatasInvalidas`).

## Model

| member | source | states |
|---|---|---|
| `Durations.ConverteParaDias` | main.py:22-34 | The validation message comes back exactly when some argument is negative. Otherwise the answer is the decimal text of `anos*365 + meses*30 + dias`: non-empty digits with that value, and a leading zero only in the text "0" itself, which is the one text `str` gives. |
| `Durations.Decompoe` | main.py:48-50 | The split adds back up to the day count under 365/30. It has fewer than 30 remaining days and at most 12 months, and months plus days stay under 365. |
| `Durations.DecompoeTotalDias` | main.py:48-50 | A duration comes back unchanged from a day count exactly when it is normal (days < 30 and months*30 + days < 365). Both directions are proved, so e.g. 12 months and 30 days do not round-trip. |
| `Durations.DecompoeIdaEVolta` | main.py:34-50 | Feeding the split back to `converte_para_dias` gives the original count's decimal text. |
| `Durations.ExtensoVazio` | main.py:51-62 | The phrase is empty exactly for 0 days. Otherwise it starts with a digit, so it never opens with a separator. |
| `Durations.ConverteDiasEmAnosMesesDiasPorExtenso` | main.py:38-62 | A negative count gives the validation message. Otherwise the appends build exactly `Extenso`: only the non-zero components, in the order years, months, days. The plural is used exactly when a count exceeds 1. ", " comes before months and " e " before days, only when something precedes them. |
| `Durations.ExemploConverteParaDias` | main.py:156 | One year and four months is "485". |
| `Durations.ExemploPorExtenso` | main.py:157 | 380 days is "1 ano e 15 dias". |
| `Durations.ExemploTresComponentes` | main.py:51-61 | 791 days is "2 anos, 2 meses e 1 dia", with plural and singular side by side. |
| `Digits.NatToString` | main.py:34 | Python's `str` of a non-negative integer: non-empty, all digits, reads back as the number, and has a leading zero only when it is exactly "0". |
| `Digits.Value` | main.py:77 | The number a field of digits denotes, read most significant digit first, has no more digits than the field. |
| `Digits.Pad` | main.py:105 | A `%02d` or `%04d` field is exactly that many digits. |
| `Digits.ValueOfPad` | main.py:105 | A zero-padded field reads back as its number whenever the number fits the width. |
| `Digits.PadOfValue` | main.py:98 | Every fixed-width digit field is the padded text of its value, so each number has one spelling per width. |
| `Calendar.IsLeap` | main.py:77-79 | The leap rule `datetime` uses: every leap year is a multiple of 4, and a multiple of 4 is leap unless it is a century year not divisible by 400. |
| `Calendar.DaysInMonth` | main.py:77-78 | Months have 28 to 31 days. 29 occurs exactly for February of a leap year. |
| `Calendar.DaysBeforeYear` | main.py:79 | The days in the years before `y`, counted from year 1: between 365 and 366 for each earlier year. |
| `Calendar.DaysBeforeMonth` | main.py:79 | The days in the months before `m` within its year: 0 for January, the whole year for `m == 13`, never more than the year. |
| `Calendar.Ordinal` | main.py:79 | The day number `datetime` subtracts and shifts: at least 1, and within the days of the date's own year. |
| `Calendar.DaysBeforeYearStep` | main.py:79 | Python's closed form for the days before a year grows by 366 across a leap year and by 365 otherwise. |
| `Calendar.YearLengthByDivisors` | main.py:79 | The Gregorian leap rule as a count: 365, plus 1 for multiples of 4, minus 1 for multiples of 100, plus 1 for multiples of 400. |
| `Calendar.FromOrdinal` | main.py:100-102 | The date for a day number is a real calendar date with that ordinal. |
| `Calendar.FromOrdinalOfOrdinal` | main.py:100-102 | Every date is recovered from its ordinal. |
| `Calendar.OrdinalInjective` | main.py:79 | Two dates with the same ordinal are equal. |
| `Calendar.ValidIffOrdinalInRange` | main.py:100-102 | A date is in years 1..9999 exactly when its ordinal is in 1..3652059. |
| `Calendar.FromOrdinalValid` | main.py:100-102 | Every ordinal in 1..3652059 names a supported date. |
| `Calendar.OrdinalNextDay` | main.py:100 | The next calendar day has the next ordinal, across month and year ends. |
| `Calendar.OrdinalDaysAfter` | main.py:100 | Taking `k` next days moves the ordinal by exactly `k`. |
| `DateText.ParseDate` | main.py:77 | A text reads only as a date `datetime` accepts: day within its month, month 1..12, year 1..9999. |
| `DateText.FormatDate` | main.py:105 | The formatted date has the `DD-MM-YYYY` shape. |
| `DateText.ParseFormat` | main.py:98-105 | A formatted date reads back as the same date. |
| `DateText.FormatParse` | main.py:98-105 | A text that reads as a date is that date's formatted text: dates are read strictly. |
| `DateText.ParseInjective` | main.py:98-105 | Under the strict reading, two texts that read as the same date are the same text. |
| `DateText.FieldValues` | main.py:77 | The day, month and year fields are their digits read in base 10. |
| `DateTools.DiferencaEntreDatas` | main.py:66-82 | The message comes back exactly when either text is not a date. Otherwise the answer is the decimal text of the absolute difference of the two ordinals: digits with that value, and a leading zero only in the text "0" itself. |
| `DateTools.DiferencaSimetrica` | main.py:79 | The answer does not depend on the order of the arguments. |
| `DateTools.DiferencaZero` | main.py:79 | Under the strict reading, for two readable dates the answer is "0" exactly when the texts are equal. |
| `DateTools.DiferencaNoMesmoMes` | main.py:79 | Two days of the same month are as many days apart as their day numbers differ. |
| `DateTools.DiferencaAnoBissexto` | main.py:158 | "01-01-2020" to "01-01-2021" is "366". |
| `DateTools.DiferencaMes13` | main.py:81-82 | A month 13 gives the message. |
| `DateTools.Diferenca30DeFevereiro` | main.py:81-82 | 30 February, even in a leap year, gives the message. |
| `DateTools.DiferencaAnoPrimeiro` | main.py:81-82 | A date written year first gives the message. |
| `DateTools.DentroDoIntervalo` | main.py:99-102 | The moves `datetime` can carry out without `OverflowError`: an unreadable date, an unknown operation and a move of 0 days are always inside. |
| `DateTools.SomaOuSubtraiDiasEmData` | main.py:86-107 | An unreadable date gives the date message, whatever the operation. A readable date with another operation gives the operation message. "soma" answers a readable date whose ordinal is the input's plus `dias`, and "subtrai" one whose ordinal is the input's minus `dias`. |
| `DateTools.SomaDepoisSubtrai` | main.py:99-102 | Under the strict reading, adding `n` days and then subtracting `n` days gives back the very same text. |
| `DateTools.DiferencaDoDeslocamento` | main.py:79-102 | The moved date is exactly `abs(dias)` days from the original, as `diferenca_entre_datas` counts it. |
| `DateTools.SomaPassoAPasso` | main.py:100 | Adding `k >= 0` days gives the date reached by stepping to the next calendar day `k` times. |
| `DateTools.ExemploSoma` | main.py:160 | "01-01-2025" plus 45 days is "15-02-2025". |
| `DateTools.ExemploSubtrai` | main.py:161 | "05-04-2025" minus 30 days is "06-03-2025". |
| `Messages.MensagensDistintas` | main.py:33-107 | The four answers of main.py:33, 82, 104 and 107 are pairwise different, and none opens with a digit, so none can be taken for a count or a date. |
| `DateTools.OperacaoInvalida` | main.py:97-107 | An unknown operation on a valid date gives the operation message. On an invalid date ("32-01-2025") it gives the date message, because the date is read first. |

## Left out

- `DateTools.SomaOuSubtraiDiasEmData`: requires the moved date to stay within years 1 to 9999. Past that bound `datetime` raises `OverflowError`. The handler at main.py:106 catches only `ValueError`, so the tool crashes instead of answering.
- `Durations.ConverteParaDias`: does not model Python's limit of 4300 digits for turning an integer into text. A larger total makes `str` raise `ValueError` at main.py:34, outside any handler, so the tool crashes. The model answers the digits.
- `Durations.ConverteDiasEmAnosMesesDiasPorExtenso`: does not model the same 4300-digit limit for the f-strings at main.py:53-61. A count of years that long makes the tool crash instead of answering.
- `DateText.ParseDate`: reads each field as exactly two, two and four ASCII digits. `strptime` also accepts one-digit day and month fields, a day written as a space and one digit, and non-ASCII decimal digits. Such inputs answer the date message in the model and a date in Python.
- `DateText.FormatDate`: always pads the year to four digits. Some Python builds on Linux write years below 1000 without padding.
- `calcula_fracao_e_porcentagem_baseado_em_dias` (main.py:110-152): its values come from binary floating-point division and multiplication, printed with two decimals. Modelling them faithfully would need IEEE 754 arithmetic and Python's rounding of floats to text.
- The agent, its system prompt and the registration of the tools (main.py:9-12 and the `@agent.tool_plain` lines): these bind to an external agent framework.
- The telemetry set-up (main.py:17-18): an external service.
- The console printing and the demo loop over the seven questions (main.py:8, 155-167): these are I/O and network calls to the LLM. The tool results behind five of the seven questions (main.py:156-158 and 160-161) are stated as the example lemmas above; the fourth question (main.py:159) has no lemma of its own.
