/**
 * The two duration tools of `main.py`: years, months and days to a day count,
 * and a day count back to years, months and days written out in Portuguese.
 * A year is always 365 days and a month always 30, whatever the calendar says.
 */
module Durations {
  import opened Digits
  import opened Messages

  const DiasPorAno := 365
  const DiasPorMes := 30

  /** A duration of whole years, months and days under the 365/30 convention. */
  datatype Duracao = Duracao(anos: nat, meses: nat, dias: nat)

  function TotalDias(p: Duracao): nat {
    p.anos * DiasPorAno + p.meses * DiasPorMes + p.dias
  }

  /**
   * `converte_para_dias`: the decimal text of the day count, or the validation
   * message when any argument is negative.
   */
  function ConverteParaDias(anos: int, meses: int, dias: int): (r: string)
    ensures r == MsgValorInvalido <==> anos < 0 || meses < 0 || dias < 0
    ensures anos >= 0 && meses >= 0 && dias >= 0 ==>
      |r| >= 1 && AllDigits(r) && Value(r) == anos * DiasPorAno + meses * DiasPorMes + dias
      && (r[0] == '0' ==> r == "0")
  {
    if anos < 0 || meses < 0 || dias < 0 then MsgValorInvalido
    else
      var r := NatToString(TotalDias(Duracao(anos, meses, dias)));
      assert IsDigit(r[0]) && !IsDigit(MsgValorInvalido[0]);
      r
  }

  /**
   * Splits a day count into whole years, whole months of what is left, and the
   * remaining days: the only split with fewer than 30 remaining days whose
   * months and days stay under a year.
   */
  function Decompoe(dias: nat): (p: Duracao)
    ensures TotalDias(p) == dias
    ensures p.dias < DiasPorMes && p.meses * DiasPorMes + p.dias < DiasPorAno
    ensures p.meses <= 12
  {
    Duracao(dias / DiasPorAno, (dias % DiasPorAno) / DiasPorMes, (dias % DiasPorAno) % DiasPorMes)
  }

  /** Converting the split of a day count back to days gives the decimal text of that count. */
  lemma DecompoeIdaEVolta(dias: nat)
    ensures ConverteParaDias(Decompoe(dias).anos, Decompoe(dias).meses, Decompoe(dias).dias) == NatToString(dias)
  {
  }

  /**
   * A duration survives the trip through a day count and back exactly when it
   * is already normal: fewer than 30 days, and months and days under a year.
   */
  lemma DecompoeTotalDias(p: Duracao)
    ensures Decompoe(TotalDias(p)) == p <==> p.dias < DiasPorMes && p.meses * DiasPorMes + p.dias < DiasPorAno
  {
    var n := TotalDias(p);
    var resto := p.meses * DiasPorMes + p.dias;
    if p.dias < DiasPorMes && resto < DiasPorAno {
      assert n == p.anos * DiasPorAno + resto;
      assert n / DiasPorAno == p.anos && n % DiasPorAno == resto;
      assert resto / DiasPorMes == p.meses && resto % DiasPorMes == p.dias;
    }
  }

  /** One component of the phrase: the count, a space and the word, with the plural ending when the count exceeds 1. */
  function Termo(n: nat, palavra: string, sufixoPlural: string): (t: string)
    ensures |t| > 0
  {
    NatToString(n) + " " + palavra + (if n > 1 then sufixoPlural else "")
  }

  /**
   * The phrase for a duration, case by case on which components are non-zero:
   * the present components in the order years, months, days, with ", " before
   * the months and " e " before the days whenever something precedes them.
   */
  function Extenso(p: Duracao): string {
    var a := Termo(p.anos, "ano", "s");
    var m := Termo(p.meses, "mes", "es");
    var d := Termo(p.dias, "dia", "s");
    match (p.anos > 0, p.meses > 0, p.dias > 0)
    case (true, true, true) => a + ", " + m + " e " + d
    case (true, true, false) => a + ", " + m
    case (true, false, true) => a + " e " + d
    case (true, false, false) => a
    case (false, true, true) => m + " e " + d
    case (false, true, false) => m
    case (false, false, true) => d
    case (false, false, false) => ""
  }

  /** The phrase is empty exactly for zero days, and otherwise starts with the first count's digits. */
  lemma ExtensoVazio(dias: nat)
    ensures Extenso(Decompoe(dias)) == "" <==> dias == 0
    ensures dias > 0 ==> IsDigit(Extenso(Decompoe(dias))[0])
  {
    var p := Decompoe(dias);
    var a := Termo(p.anos, "ano", "s");
    var m := Termo(p.meses, "mes", "es");
    var d := Termo(p.dias, "dia", "s");
    assert IsDigit(a[0]) && IsDigit(m[0]) && IsDigit(d[0]);
  }

  /** One year and four months are 485 days. */
  lemma ExemploConverteParaDias()
    ensures ConverteParaDias(1, 4, 0) == "485"
  {
    assert NatToString(4) == "4";
    assert NatToString(48) == "48";
  }

  /** 380 days are one year and fifteen days: no months, so the days follow " e " directly. */
  lemma ExemploPorExtenso()
    ensures Extenso(Decompoe(380)) == "1 ano e 15 dias"
  {
    assert Decompoe(380) == Duracao(1, 0, 15);
    assert Termo(1, "ano", "s") == "1 ano";
    assert NatToString(15) == "15";
    assert Termo(15, "dia", "s") == "15 dias";
  }

  /** All three components, with singular and plural forms side by side. */
  lemma ExemploTresComponentes()
    ensures Extenso(Decompoe(791)) == "2 anos, 2 meses e 1 dia"
  {
    assert Decompoe(791) == Duracao(2, 2, 1);
    assert Termo(2, "ano", "s") == "2 anos";
    assert Termo(2, "mes", "es") == "2 meses";
    assert Termo(1, "dia", "s") == "1 dia";
    assert Extenso(Duracao(2, 2, 1)) == "2 anos" + ", " + "2 meses" + " e " + "1 dia";
  }

  /**
   * `converte_dias_em_anos_meses_dias_por_extenso`: the validation message for
   * a negative count, otherwise the phrase built by successive appends.
   */
  method ConverteDiasEmAnosMesesDiasPorExtenso(dias: int) returns (resultado: string)
    ensures dias < 0 ==> resultado == MsgValorInvalido
    ensures dias >= 0 ==> resultado == Extenso(Decompoe(dias))
  {
    if dias < 0 {
      return MsgValorInvalido;
    }
    var p := Decompoe(dias);
    resultado := "";
    if p.anos > 0 {
      resultado := resultado + Termo(p.anos, "ano", "s");
    }
    assert resultado == Extenso(Duracao(p.anos, 0, 0));
    if p.meses > 0 {
      if resultado != "" {
        resultado := resultado + ", ";
      }
      resultado := resultado + Termo(p.meses, "mes", "es");
    }
    assert resultado == Extenso(Duracao(p.anos, p.meses, 0));
    if p.dias > 0 {
      if resultado != "" {
        resultado := resultado + " e ";
      }
      resultado := resultado + Termo(p.dias, "dia", "s");
    }
  }
}
