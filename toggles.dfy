/** The on/off switches of the views: a beneficiary's and a benefit's `ativo`
    (`pessoa_toggle`, `beneficio_toggle`) and a user's `is_staff` and `is_active`
    (`usuario_toggle_staff`, `usuario_toggle_active`), which only staff may use and
    never on their own account. */
module Toggles {
  import opened Text
  import opened Entities
  import opened Models

  /** `pessoa_toggle`: flips `ativo` and saves, which also refreshes `cpf_ultimos_4`. */
  method TogglePessoa(rec: PessoaRecord)
    modifies rec
    ensures rec.data.ativo == !old(rec.data.ativo)
    ensures var ds := Digits(old(rec.data).cpf);
      rec.data == old(rec.data).(ativo := !old(rec.data.ativo),
                                 cpfUltimos4 := if |ds| >= 4 then LastN(ds, 4) else old(rec.data.cpfUltimos4))
  {
    rec.data := rec.data.(ativo := !rec.data.ativo);
    rec.Save();
  }

  /** `beneficio_toggle`: flips `ativo` and nothing else. */
  method ToggleBeneficio(rec: BeneficioRecord)
    modifies rec
    ensures rec.data == old(rec.data).(ativo := !old(rec.data.ativo))
  {
    rec.data := rec.data.(ativo := !rec.data.ativo);
  }

  /** What a user toggle does: refuse non-staff, refuse the acting user's own account
      (users compare by primary key), or flip the flag. */
  datatype Outcome = NotAllowed | OwnAccount | Flipped

  function Decide(actorIsStaff: bool, actorId: nat, targetId: nat): (o: Outcome)
    ensures o == Flipped <==> actorIsStaff && actorId != targetId
    ensures o == NotAllowed <==> !actorIsStaff
  {
    if !actorIsStaff then NotAllowed
    else if targetId == actorId then OwnAccount
    else Flipped
  }

  /** No one can change their own permissions or deactivate their own account. */
  lemma OwnAccountNeverFlipped(actorIsStaff: bool, id: nat)
    ensures Decide(actorIsStaff, id, id) != Flipped
    ensures actorIsStaff ==> Decide(actorIsStaff, id, id) == OwnAccount
  {
  }

  /** `usuario_toggle_staff`. */
  method ToggleStaff(actor: User, target: User) returns (o: Outcome)
    modifies target
    ensures o == Decide(old(actor.isStaff), actor.id, target.id)
    ensures o == Flipped ==> target.isStaff == !old(target.isStaff)
    ensures o != Flipped ==> target.isStaff == old(target.isStaff)
    ensures target.isActive == old(target.isActive) && target.username == old(target.username)
    ensures target.mustChangePassword == old(target.mustChangePassword)
  {
    o := Decide(actor.isStaff, actor.id, target.id);
    if o == Flipped {
      target.isStaff := !target.isStaff;
    }
  }

  /** `usuario_toggle_active`. */
  method ToggleActive(actor: User, target: User) returns (o: Outcome)
    modifies target
    ensures o == Decide(old(actor.isStaff), actor.id, target.id)
    ensures o == Flipped ==> target.isActive == !old(target.isActive)
    ensures o != Flipped ==> target.isActive == old(target.isActive)
    ensures target.isStaff == old(target.isStaff) && target.username == old(target.username)
    ensures target.mustChangePassword == old(target.mustChangePassword)
  {
    o := Decide(actor.isStaff, actor.id, target.id);
    if o == Flipped {
      target.isActive := !target.isActive;
    }
  }
}
