/** Capability bits, firmware versions, register addresses and command codes of bypass.h and bp_ioctl.h. */
module Codes {
  import opened Bits

  const BP_OK := 0
  const BP_NOT_CAP := -1

  // capabilities
  const BP_CAP: bv32 := 0x1
  const BP_STATUS_CAP: bv32 := 0x2
  const BP_STATUS_CHANGE_CAP: bv32 := 0x4
  const SW_CTL_CAP: bv32 := 0x8
  const BP_DIS_CAP: bv32 := 0x10
  const BP_DIS_STATUS_CAP: bv32 := 0x20
  const STD_NIC_CAP: bv32 := 0x40
  const BP_PWOFF_ON_CAP: bv32 := 0x80
  const BP_PWOFF_OFF_CAP: bv32 := 0x100
  const BP_PWOFF_CTL_CAP: bv32 := 0x200
  const BP_PWUP_ON_CAP: bv32 := 0x400
  const BP_PWUP_OFF_CAP: bv32 := 0x800
  const BP_PWUP_CTL_CAP: bv32 := 0x1000
  const WD_CTL_CAP: bv32 := 0x2000
  const WD_STATUS_CAP: bv32 := 0x4000
  const WD_TIMEOUT_CAP: bv32 := 0x8000
  const TX_CTL_CAP: bv32 := 0x1_0000
  const TX_STATUS_CAP: bv32 := 0x2_0000
  const TAP_CAP: bv32 := 0x4_0000
  const TAP_STATUS_CAP: bv32 := 0x8_0000
  const TAP_STATUS_CHANGE_CAP: bv32 := 0x10_0000
  const TAP_DIS_CAP: bv32 := 0x20_0000
  const TAP_DIS_STATUS_CAP: bv32 := 0x40_0000
  const TAP_PWUP_ON_CAP: bv32 := 0x80_0000
  const TAP_PWUP_OFF_CAP: bv32 := 0x100_0000
  const TAP_PWUP_CTL_CAP: bv32 := 0x200_0000
  const NIC_CAP_NEG: bv32 := 0x400_0000
  const TPL_CAP: bv32 := 0x800_0000
  const DISC_CAP: bv32 := 0x1000_0000
  const DISC_DIS_CAP: bv32 := 0x2000_0000
  const DISC_PWUP_CTL_CAP: bv32 := 0x4000_0000
  const TPL2_CAP_EX: bv32 := 0x1
  const DISC_PORT_CAP_EX: bv32 := 0x2

  // external firmware versions
  const PXG2BPI_VER := 0x0
  const PXG2TBPI_VER := 0x1
  const PXE2TBPI_VER := 0x2
  const PXG4BPFI_VER := 0x4
  const BP_FW_EXT_VER7 := 0x6
  const BP_FW_EXT_VER8 := 0x8
  const BP_FW_EXT_VER9 := 0x9

  // PIC registers
  const STATUS_REG_ADDR := 0
  const WDT_REG_ADDR := 4
  const STATUS_TAP_REG_ADDR := 6
  const CMND_REG_ADDR := 10
  const STATUS_DISC_REG_ADDR := 13

  // commands
  const CMND_ON: byte := 0x4
  const CMND_OFF: byte := 0x2
  const WDT_ON: byte := 0x10
  const WDT_OFF: byte := 0x6
  const BYPASS_ON: byte := 0xa
  const BYPASS_OFF: byte := 0x8
  const TAP_ON: byte := 0xb
  const TAP_OFF: byte := 0x9
  const RESET_CONT: byte := 0x20
  const DIS_BYPASS_CAP: byte := 0x22
  const EN_BYPASS_CAP: byte := 0x24
  const BYPASS_STATE_PWRON: byte := 0x26
  const BYPASS_STATE_PWROFF: byte := 0x27
  const NORMAL_STATE_PWRON: byte := 0x28
  const NORMAL_STATE_PWROFF: byte := 0x29
  const TAP_STATE_PWRON: byte := 0x2a
  const DIS_TAP_CAP: byte := 0x2c
  const EN_TAP_CAP: byte := 0x2e
  const BP_WAIT_AT_PWUP_EN: byte := 0x80
  const BP_WAIT_AT_PWUP_DIS: byte := 0x81
  const BP_HW_RESET_EN: byte := 0x82
  const BP_HW_RESET_DIS: byte := 0x83
  const STD_NIC_ON: byte := 0x84
  const DISC_ON: byte := 0x85
  const STD_NIC_OFF: byte := 0x86
  const DISC_STATE_PWRON: byte := 0x87
  const DIS_DISC_CAP: byte := 0x88
  const EN_DISC_CAP: byte := 0x89
  const DISC_OFF: byte := 0x8a
  const TPL2_OFF: byte := 0x8b
  const TPL2_ON: byte := 0x8c
  const TX_DISA: byte := 0x8d
  const TX_DISB: byte := 0x8e
  const TX_ENA: byte := 0xa0
  const TX_ENB: byte := 0xa1

  /** `caps & mask` in a condition. */
  predicate Cap(caps: bv32, mask: bv32) {
    caps & mask != 0
  }
}
