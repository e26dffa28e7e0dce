/** The records the benefit screens and documents read: benefit programmes and the
    people enrolled in them. Amounts are integer cents. */
module Entities {

  /** A benefit programme (`Beneficio`). */
  datatype Beneficio = Beneficio(id: nat, nome: string, contaPagadora: string, icone: string, ativo: bool)

  /** A beneficiary (`Pessoa`) as a value: the fields the screens and documents use. */
  datatype Pessoa = Pessoa(
    id: nat,
    nomeCompleto: string,
    cpf: string,
    cpfUltimos4: string,
    celular: string,
    endereco: string,
    bairro: string,
    cidade: string,
    valorBeneficio: int,
    beneficioId: nat,
    ativo: bool)
}
