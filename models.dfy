/** The persistent records whose fields the application updates in place: a
    beneficiary's stored row, a benefit's stored row, the configuration singleton and a
    user account. */
module Models {
  import opened Common
  import opened Text
  import opened Entities

  /** A beneficiary's stored row (`Pessoa`). */
  class PessoaRecord {
    var data: Pessoa

    constructor (p: Pessoa)
      ensures data == p
    {
      data := p;
    }

    /** `Pessoa.save`: when the CPF has at least four digits, `cpf_ultimos_4` becomes
        the last four of them; otherwise the stored value is kept. */
    method Save()
      modifies this
      ensures var ds := Digits(old(data).cpf);
        && (|ds| >= 4 ==> data == old(data).(cpfUltimos4 := LastN(ds, 4)))
        && (|ds| < 4 ==> data == old(data))
    {
      if data.cpf != [] {
        var numeros := Digits(data.cpf);
        if |numeros| >= 4 {
          data := data.(cpfUltimos4 := numeros[|numeros| - 4..]);
        }
      }
    }
  }

  /** A benefit's stored row (`Beneficio`); its `save` has no logic of its own. */
  class BeneficioRecord {
    var data: Beneficio

    constructor (b: Beneficio)
      ensures data == b
    {
      data := b;
    }
  }

  /** The derived column holds four digits that end the CPF's digit string. */
  lemma LastFourAreCpfSuffix(cpf: string)
    requires |Digits(cpf)| >= 4
    ensures var l := LastN(Digits(cpf), 4);
      |l| == 4 && AllDigits(l) && EndsWith(Digits(cpf), l)
  {
    var ds := Digits(cpf);
    var l := LastN(ds, 4);
    forall i | 0 <= i < 4 ensures IsDigit(l[i]) { assert l[i] == ds[|ds| - 4 + i]; }
  }

  /** The configuration values (`ConfiguracaoGeral`). */
  datatype ConfigData = ConfigData(
    secretariaNome: string,
    secretariaCargo: string,
    financasNome: string,
    financasCargo: string,
    emailInstitucional: string,
    endereco: string,
    cep: string)

  /** The field defaults a fresh configuration is created with. */
  const DefaultConfig: ConfigData := ConfigData(
    "Zélia Maria Matias e Silva",
    "Secretária Adjunta de Assistência Social",
    "Carlos Roberto Alves Filho",
    "Secretário de Finanças",
    "assistenciasocialpocinhos@gmail.com",
    "Rua Pç. Pres. Getúlio Vargas, 57, Centro",
    "58150-000")

  /** The single primary key every configuration is saved under. */
  const ConfigPk: nat := 1

  /** The configuration table, keyed by primary key. */
  class ConfigStore {
    var rows: map<nat, ConfigData>

    /** Only the row with key 1 can exist. */
    predicate Valid()
      reads this
    {
      forall k :: k in rows ==> k == ConfigPk
    }

    constructor ()
      ensures Valid() && rows == map[]
    {
      rows := map[];
    }

    /** `ConfiguracaoGeral.save`: whatever key the instance had, it is stored under key 1,
        replacing any earlier configuration. */
    method Save(instancePk: Option<nat>, c: ConfigData)
      requires Valid()
      modifies this
      ensures Valid()
      ensures rows == map[ConfigPk := c]
    {
      rows := rows[ConfigPk := c];
      assert rows.Keys == {ConfigPk};
    }

    /** `ConfiguracaoGeral.get_config`: the stored configuration, created with the
        defaults when there is none. */
    method GetConfig() returns (c: ConfigData)
      requires Valid()
      modifies this
      ensures Valid()
      ensures ConfigPk in old(rows) ==> c == old(rows)[ConfigPk] && rows == old(rows)
      ensures ConfigPk !in old(rows) ==> c == DefaultConfig && rows == map[ConfigPk := DefaultConfig]
      ensures rows == map[ConfigPk := c]
    {
      if ConfigPk in rows {
        c := rows[ConfigPk];
        assert rows == map[ConfigPk := c];
      } else {
        assert rows == map[];
        c := DefaultConfig;
        rows := rows[ConfigPk := c];
      }
    }
  }

  /** A table whose keys are all 1 holds at most one configuration. */
  lemma AtMostOneConfig(rows: map<nat, ConfigData>)
    requires forall k :: k in rows ==> k == ConfigPk
    ensures |rows| <= 1
  {
    if ConfigPk in rows {
      assert rows.Keys == {ConfigPk};
    } else {
      assert rows.Keys == {};
    }
  }

  /** A user account (`User`); `must_change_password` defaults to true. */
  class User {
    const id: nat
    var username: string
    var isStaff: bool
    var isActive: bool
    var mustChangePassword: bool

    constructor (id: nat, username: string, isStaff: bool)
      ensures this.id == id && this.username == username && this.isStaff == isStaff
      ensures isActive && mustChangePassword
    {
      this.id := id;
      this.username := username;
      this.isStaff := isStaff;
      isActive := true;
      mustChangePassword := true;
    }
  }
}
