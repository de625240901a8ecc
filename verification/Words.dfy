module Words {

  type u32 = n: nat | n < 0x1_0000_0000
}
