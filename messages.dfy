/** The fixed answers `main.py` gives instead of a result. */
module Messages {

  /** The opening shared by the three validation messages. */
  const PorFavorInforme := "Por favor, informe "

  /** A negative count of years, months or days. */
  const MsgValorInvalido := PorFavorInforme + "um valor válido."
  /** Either date of a difference does not read; the text names 'YYYY-MM-DD' although dates are read as DD-MM-YYYY. */
  const MsgDatasInvalidas := PorFavorInforme + "datas válidas no formato 'YYYY-MM-DD'."
  /** The date to move does not read. */
  const MsgDataInvalida := PorFavorInforme + "uma data válida no formato 'DD-MM-YYYY'."
  /** The operation is neither "soma" nor "subtrai". */
  const MsgOperacaoInvalida := "Operação inválida. Use 'soma' ou 'subtrai'."

  /**
   * The four answers are different from one another, and none opens with a
   * digit, so none can be mistaken for a count of days or a date.
   */
  lemma MensagensDistintas()
    ensures MsgValorInvalido != MsgDatasInvalidas && MsgValorInvalido != MsgDataInvalida
    ensures MsgDatasInvalidas != MsgDataInvalida
    ensures MsgOperacaoInvalida != MsgValorInvalido && MsgOperacaoInvalida != MsgDatasInvalidas
    ensures MsgOperacaoInvalida != MsgDataInvalida
    ensures !('0' <= MsgValorInvalido[0] <= '9') && !('0' <= MsgDatasInvalidas[0] <= '9')
    ensures !('0' <= MsgDataInvalida[0] <= '9') && !('0' <= MsgOperacaoInvalida[0] <= '9')
  {
    var n := |PorFavorInforme|;
    assert MsgValorInvalido[n] == 'u' && MsgDatasInvalidas[n] == 'd' && MsgDataInvalida[n] == 'u';
    assert MsgValorInvalido[n + 2] == ' ' && MsgDataInvalida[n + 2] == 'a';
    assert MsgOperacaoInvalida[0] == 'O' && MsgValorInvalido[0] == 'P';
  }
}
