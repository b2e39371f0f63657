/**
 * The two date tools of `main.py`: the distance in days between two dates, and
 * a date moved forwards or backwards by a number of days. Both read and write
 * dates as `DD-MM-YYYY` and answer a date that does not read with a message.
 */
module DateTools {
  import opened Digits
  import opened Calendar
  import opened DateText
  import opened Messages

  function Abs(x: int): nat {
    if x < 0 then -x else x
  }

  /**
   * `diferenca_entre_datas`: the number of days between the two dates, in
   * decimal, whichever comes first; the message when either does not read.
   */
  function DiferencaEntreDatas(data1: string, data2: string): (r: string)
    ensures r == MsgDatasInvalidas <==> ParseDate(data1).None? || ParseDate(data2).None?
    ensures ParseDate(data1).Some? && ParseDate(data2).Some? ==>
      |r| >= 1 && AllDigits(r) && Value(r) == Abs(Ordinal(ParseDate(data2).value) - Ordinal(ParseDate(data1).value))
      && (r[0] == '0' ==> r == "0")
  {
    match (ParseDate(data1), ParseDate(data2))
    case (Some(d1), Some(d2)) =>
      var r := NatToString(Abs(Ordinal(d2) - Ordinal(d1)));
      assert IsDigit(r[0]) && !IsDigit(MsgDatasInvalidas[0]);
      r
    case _ => MsgDatasInvalidas
  }

  /** The distance does not depend on the order of the two dates. */
  lemma DiferencaSimetrica(data1: string, data2: string)
    ensures DiferencaEntreDatas(data1, data2) == DiferencaEntreDatas(data2, data1)
  {
    if ParseDate(data1).Some? && ParseDate(data2).Some? {
      var d1, d2 := ParseDate(data1).value, ParseDate(data2).value;
      assert Abs(Ordinal(d2) - Ordinal(d1)) == Abs(Ordinal(d1) - Ordinal(d2));
    }
  }

  /** A date is zero days from itself, and only from itself. */
  lemma DiferencaZero(data1: string, data2: string)
    requires ParseDate(data1).Some? && ParseDate(data2).Some?
    ensures DiferencaEntreDatas(data1, data2) == "0" <==> data1 == data2
  {
    var d1, d2 := ParseDate(data1).value, ParseDate(data2).value;
    var r := DiferencaEntreDatas(data1, data2);
    if r == "0" {
      assert Value(r) == 0;
      OrdinalInjective(d1, d2);
      ParseInjective(data1, data2);
    }
  }

  /** Two days in the same month are as far apart as their day numbers. */
  lemma DiferencaNoMesmoMes(d1: Date, d2: Date)
    requires Valid(d1) && Valid(d2) && d1.year == d2.year && d1.month == d2.month
    ensures DiferencaEntreDatas(FormatDate(d1), FormatDate(d2)) == NatToString(Abs(d2.day - d1.day))
  {
    ParseFormat(d1);
    ParseFormat(d2);
  }

  /** The example of 2020, a leap year: a whole year apart is 366 days. */
  lemma DiferencaAnoBissexto()
    ensures DiferencaEntreDatas("01-01-2020", "01-01-2021") == "366"
  {
    assert |"01-01-2020"| == 10;
    LerData("01-01-2020", Date(2020, 1, 1));
    assert |"01-01-2021"| == 10;
    LerData("01-01-2021", Date(2021, 1, 1));
    assert Ordinal(Date(2021, 1, 1)) - Ordinal(Date(2020, 1, 1)) == 366;
    assert DiferencaEntreDatas("01-01-2020", "01-01-2021") == NatToString(366);
    assert NatToString(36) == "36";
  }

  /** A month 13 is not a date. */
  lemma DiferencaMes13()
    ensures DiferencaEntreDatas("01-13-2020", "01-01-2021") == MsgDatasInvalidas
  {
    assert |"01-13-2020"| == 10;
    FieldValues("01-13-2020");
    assert ParseDate("01-13-2020") == None;
  }

  /** 30 February is not a date, even in the leap year 2024. */
  lemma Diferenca30DeFevereiro()
    ensures DiferencaEntreDatas("01-01-2020", "30-02-2024") == MsgDatasInvalidas
  {
    assert |"30-02-2024"| == 10;
    FieldValues("30-02-2024");
    assert ParseDate("30-02-2024") == None;
  }

  /** A date written year first does not read. */
  lemma DiferencaAnoPrimeiro()
    ensures DiferencaEntreDatas("2020-01-01", "01-01-2021") == MsgDatasInvalidas
  {
    assert "2020-01-01"[2] != '-';
    assert ParseDate("2020-01-01") == None;
  }

  /** Reads a literal date text, field by field. */
  lemma LerData(s: string, d: Date)
    requires WellShaped(s) && Valid(d)
    requires d.day == DigitValue(s[0]) * 10 + DigitValue(s[1])
    requires d.month == DigitValue(s[3]) * 10 + DigitValue(s[4])
    requires d.year == ((DigitValue(s[6]) * 10 + DigitValue(s[7])) * 10 + DigitValue(s[8])) * 10 + DigitValue(s[9])
    ensures ParseDate(s) == Some(d)
  {
    FieldValues(s);
  }

  /** The signed number of days an operation moves a date by; `None` for an unknown operation. */
  function Deslocamento(operacao: string, dias: int): Option<int> {
    if operacao == "soma" then Some(dias)
    else if operacao == "subtrai" then Some(-dias)
    else None
  }

  /**
   * The moved date stays within the years 1 to 9999; `datetime` raises an
   * uncaught `OverflowError` otherwise.
   */
  predicate DentroDoIntervalo(data: string, operacao: string, dias: int)
    ensures ParseDate(data).None? || Deslocamento(operacao, dias).None? ==> DentroDoIntervalo(data, operacao, dias)
    ensures dias == 0 ==> DentroDoIntervalo(data, operacao, dias)
  {
    match (ParseDate(data), Deslocamento(operacao, dias))
    case (Some(d), Some(k)) =>
      ValidIffOrdinalInRange(d);
      1 <= Ordinal(d) + k <= MaxOrdinal
    case _ => true
  }

  /**
   * `soma_ou_subtrai_dias_em_data`: the date read first, then the operation
   * checked; the moved date is written back as `DD-MM-YYYY`.
   */
  function SomaOuSubtraiDiasEmData(data: string, operacao: string, dias: int): (r: string)
    requires DentroDoIntervalo(data, operacao, dias)
    ensures ParseDate(data).None? ==> r == MsgDataInvalida
    ensures ParseDate(data).Some? && operacao != "soma" && operacao != "subtrai" ==> r == MsgOperacaoInvalida
    ensures ParseDate(data).Some? && operacao == "soma" ==>
      ParseDate(r).Some? && Ordinal(ParseDate(r).value) == Ordinal(ParseDate(data).value) + dias
    ensures ParseDate(data).Some? && operacao == "subtrai" ==>
      ParseDate(r).Some? && Ordinal(ParseDate(r).value) == Ordinal(ParseDate(data).value) - dias
  {
    match ParseDate(data)
    case None => MsgDataInvalida
    case Some(d) =>
      match Deslocamento(operacao, dias)
      case None => MsgOperacaoInvalida
      case Some(k) =>
        var n := Ordinal(d) + k;
        FromOrdinalValid(n);
        ParseFormat(FromOrdinal(n));
        FormatDate(FromOrdinal(n))
  }

  /** Adding `dias` and then subtracting `dias` gives back the very same text. */
  lemma SomaDepoisSubtrai(data: string, dias: int)
    requires ParseDate(data).Some? && DentroDoIntervalo(data, "soma", dias)
    ensures DentroDoIntervalo(SomaOuSubtraiDiasEmData(data, "soma", dias), "subtrai", dias)
    ensures SomaOuSubtraiDiasEmData(SomaOuSubtraiDiasEmData(data, "soma", dias), "subtrai", dias) == data
  {
    var d := ParseDate(data).value;
    var s := SomaOuSubtraiDiasEmData(data, "soma", dias);
    ValidIffOrdinalInRange(d);
    assert DentroDoIntervalo(s, "subtrai", dias);
    var t := SomaOuSubtraiDiasEmData(s, "subtrai", dias);
    OrdinalInjective(ParseDate(t).value, d);
    ParseInjective(t, data);
  }

  /** The moved date is exactly `|dias|` days away from the original. */
  lemma DiferencaDoDeslocamento(data: string, operacao: string, dias: int)
    requires ParseDate(data).Some? && (operacao == "soma" || operacao == "subtrai")
    requires DentroDoIntervalo(data, operacao, dias)
    ensures DiferencaEntreDatas(data, SomaOuSubtraiDiasEmData(data, operacao, dias)) == NatToString(Abs(dias))
  {
    var d := ParseDate(data).value;
    var r := SomaOuSubtraiDiasEmData(data, operacao, dias);
    var e := ParseDate(r).value;
    assert Ordinal(e) == Ordinal(d) + Deslocamento(operacao, dias).value;
    assert DiferencaEntreDatas(data, r) == NatToString(Abs(Ordinal(e) - Ordinal(d)));
    assert Abs(Ordinal(e) - Ordinal(d)) == Abs(dias);
  }

  /** Adding `k >= 0` days lands on the date reached by stepping to the next day `k` times. */
  lemma SomaPassoAPasso(d: Date, k: nat)
    requires Valid(d) && Ordinal(d) + k <= MaxOrdinal
    ensures Valid(DaysAfter(d, k))
    ensures DentroDoIntervalo(FormatDate(d), "soma", k)
    ensures SomaOuSubtraiDiasEmData(FormatDate(d), "soma", k) == FormatDate(DaysAfter(d, k))
  {
    ParseFormat(d);
    ValidIffOrdinalInRange(d);
    OrdinalDaysAfter(d, k);
    ValidIffOrdinalInRange(DaysAfter(d, k));
    var r := SomaOuSubtraiDiasEmData(FormatDate(d), "soma", k);
    OrdinalInjective(ParseDate(r).value, DaysAfter(d, k));
    FormatParse(r);
  }

  /** The example of 1 January 2025 plus 45 days. */
  lemma ExemploSoma()
    ensures DentroDoIntervalo("01-01-2025", "soma", 45)
    ensures SomaOuSubtraiDiasEmData("01-01-2025", "soma", 45) == "15-02-2025"
  {
    assert |"01-01-2025"| == 10;
    LerData("01-01-2025", Date(2025, 1, 1));
    ValidIffOrdinalInRange(Date(2025, 1, 1));
    assert |"15-02-2025"| == 10;
    MovidoPara("01-01-2025", "soma", 45, "15-02-2025", Date(2025, 2, 15));
  }

  /** The example of 5 April 2025 minus 30 days. */
  lemma ExemploSubtrai()
    ensures DentroDoIntervalo("05-04-2025", "subtrai", 30)
    ensures SomaOuSubtraiDiasEmData("05-04-2025", "subtrai", 30) == "06-03-2025"
  {
    assert |"05-04-2025"| == 10;
    LerData("05-04-2025", Date(2025, 4, 5));
    ValidIffOrdinalInRange(Date(2025, 4, 5));
    assert |"06-03-2025"| == 10;
    MovidoPara("05-04-2025", "subtrai", 30, "06-03-2025", Date(2025, 3, 6));
  }

  /** Moving `data` lands on `esperado` when the date `esperado` reads as has the moved ordinal. */
  lemma MovidoPara(data: string, operacao: string, dias: int, esperado: string, e: Date)
    requires DentroDoIntervalo(data, operacao, dias)
    requires ParseDate(data).Some? && Deslocamento(operacao, dias).Some?
    requires WellShaped(esperado) && Valid(e)
    requires e.day == DigitValue(esperado[0]) * 10 + DigitValue(esperado[1])
    requires e.month == DigitValue(esperado[3]) * 10 + DigitValue(esperado[4])
    requires e.year == ((DigitValue(esperado[6]) * 10 + DigitValue(esperado[7])) * 10 + DigitValue(esperado[8])) * 10 + DigitValue(esperado[9])
    requires Ordinal(e) == Ordinal(ParseDate(data).value) + Deslocamento(operacao, dias).value
    ensures SomaOuSubtraiDiasEmData(data, operacao, dias) == esperado
  {
    LerData(esperado, e);
    var r := SomaOuSubtraiDiasEmData(data, operacao, dias);
    OrdinalInjective(ParseDate(r).value, e);
    ParseInjective(r, esperado);
  }

  /** The date is read before the operation is looked at: a bad date wins over a bad operation. */
  lemma OperacaoInvalida()
    ensures SomaOuSubtraiDiasEmData("01-01-2025", "multiplica", 3) == MsgOperacaoInvalida
    ensures SomaOuSubtraiDiasEmData("32-01-2025", "multiplica", 3) == MsgDataInvalida
  {
    assert |"01-01-2025"| == 10;
    LerData("01-01-2025", Date(2025, 1, 1));
    assert Value("32") == 32;
  }
}
