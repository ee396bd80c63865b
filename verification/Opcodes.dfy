/** The instruction set shared by the compiler and the VM. */
module Opcodes {
  import opened Words

  const HALT: byte := 0x00
  const PUSH_INT: byte := 0x01
  const PUSH_BOOL: byte := 0x02
  const POP: byte := 0x03
  const DUP: byte := 0x04
  const SWAP: byte := 0x05
  const ADD: byte := 0x10
  const SUB: byte := 0x11
  const MUL: byte := 0x12
  const DIV: byte := 0x13
  const MOD: byte := 0x14
  const NEG: byte := 0x15
  const EQ: byte := 0x20
  const LT: byte := 0x21
  const GT: byte := 0x22
  const AND: byte := 0x23
  const OR: byte := 0x24
  const NOT: byte := 0x25
  const JMP: byte := 0x30
  const JMP_IF_FALSE: byte := 0x31
  const CALL: byte := 0x32
  const RETURN: byte := 0x33
  const LOAD_LOCAL: byte := 0x40
  const STORE_LOCAL: byte := 0x41
  const LOAD_CONST: byte := 0x50
  const PERCEIVE: byte := 0x80
  const LOOK: byte := 0x81
  const MOVE: byte := 0x82
  const TURN_LEFT: byte := 0x83
  const TURN_RIGHT: byte := 0x84
  const EAT: byte := 0x85
  const DRINK: byte := 0x86
  const REPRODUCE: byte := 0x87
  const MY_ENERGY: byte := 0x88
  const MY_HYDRATION: byte := 0x89
  const MY_TRAIT: byte := 0x8A
  const NOP: byte := 0xFF

  /** The opcodes with two stack operands and one result. */
  predicate IsBinary(op: byte) {
    ADD <= op <= MOD || EQ <= op <= OR
  }
}
