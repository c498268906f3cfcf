/** `instruction_classes`: the dictionary from mnemonic to instruction
    class that both directions of the factory read. */
module Classes {
  import opened Wrappers
  import opened Encoding

  /** The key under which `instruction_classes` lists a class. */
  function Mnemonic(k: Kind): string {
    match k
    case KR(op) =>
      (match op
       case Add => "add" case Sub => "sub" case Sll => "sll" case Xor => "xor"
       case Srl => "srl" case Sra => "sra" case Or => "or" case And => "and")
    case KLoad(op) =>
      (match op
       case Lb => "lb" case Lh => "lh" case Lw => "lw" case Ld => "ld"
       case Lbu => "lbu" case Lhu => "lhu" case Lwu => "lwu")
    case KImm(op) =>
      (match op
       case Addi => "addi" case Slli => "slli" case Xori => "xori" case Srli => "srli"
       case Srai => "srai" case Ori => "ori" case Andi => "andi")
    case KJalr => "jalr"
    case KStore(op) =>
      (match op case Sb => "sb" case Sh => "sh" case Sw => "sw" case Sd => "sd")
    case KBranch(op) =>
      (match op
       case Beq => "beq" case Bne => "bne" case Blt => "blt" case Bge => "bge"
       case Bltu => "bltu" case Bgeu => "bgeu")
    case KLui => "lui"
    case KJal => "jal"
  }

  /** `instruction_classes[name]`, and equally the `match` of `__translate`,
      whose cases list the same 35 names: the class a name selects, if any. */
  function ClassNamed(name: string): (r: Option<Kind>)
    ensures r.Some? ==> Mnemonic(r.value) == name
  {
    match name
    case "add" => Some(KR(Add)) case "sub" => Some(KR(Sub)) case "sll" => Some(KR(Sll))
    case "xor" => Some(KR(Xor)) case "srl" => Some(KR(Srl)) case "sra" => Some(KR(Sra))
    case "or" => Some(KR(Or)) case "and" => Some(KR(And))
    case "lb" => Some(KLoad(Lb)) case "lh" => Some(KLoad(Lh)) case "lw" => Some(KLoad(Lw))
    case "ld" => Some(KLoad(Ld)) case "lbu" => Some(KLoad(Lbu)) case "lhu" => Some(KLoad(Lhu))
    case "lwu" => Some(KLoad(Lwu))
    case "addi" => Some(KImm(Addi)) case "slli" => Some(KImm(Slli)) case "xori" => Some(KImm(Xori))
    case "srli" => Some(KImm(Srli)) case "srai" => Some(KImm(Srai)) case "ori" => Some(KImm(Ori))
    case "andi" => Some(KImm(Andi))
    case "jalr" => Some(KJalr)
    case "sb" => Some(KStore(Sb)) case "sh" => Some(KStore(Sh)) case "sw" => Some(KStore(Sw))
    case "sd" => Some(KStore(Sd))
    case "beq" => Some(KBranch(Beq)) case "bne" => Some(KBranch(Bne)) case "blt" => Some(KBranch(Blt))
    case "bge" => Some(KBranch(Bge)) case "bltu" => Some(KBranch(Bltu)) case "bgeu" => Some(KBranch(Bgeu))
    case "lui" => Some(KLui)
    case "jal" => Some(KJal)
    case _ => None
  }

  /** Every class is listed under its own mnemonic, so the table is a
      bijection between the 35 names and the 35 classes. */
  lemma ClassNamedMnemonic(k: Kind)
    ensures ClassNamed(Mnemonic(k)) == Some(k)
  {
  }

  /** The classes grouped as the dictionary display lists them. */
  const RClasses: seq<Kind> :=
    [KR(Add), KR(Sub), KR(Sll), KR(Xor), KR(Srl), KR(Sra), KR(Or), KR(And)]
  const LoadClasses: seq<Kind> :=
    [KLoad(Lb), KLoad(Lh), KLoad(Lw), KLoad(Ld), KLoad(Lbu), KLoad(Lhu), KLoad(Lwu)]
  const ImmClasses: seq<Kind> :=
    [KImm(Addi), KImm(Slli), KImm(Xori), KImm(Srli), KImm(Srai), KImm(Ori), KImm(Andi)]
  const StoreClasses: seq<Kind> := [KStore(Sb), KStore(Sh), KStore(Sw), KStore(Sd)]
  const BranchClasses: seq<Kind> :=
    [KBranch(Beq), KBranch(Bne), KBranch(Blt), KBranch(Bge), KBranch(Bltu), KBranch(Bgeu)]

  /** `instruction_classes.values()`, in insertion order: the order in which
      `__translate_int` filters the candidates. */
  const Order: seq<Kind> :=
    RClasses + LoadClasses + ImmClasses + [KJalr] + StoreClasses + BranchClasses + [KLui, KJal]
}
