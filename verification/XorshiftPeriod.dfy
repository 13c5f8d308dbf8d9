/** The period of the generator: every run but the one from zero comes back to its seed after exactly 2^32 - 1 draws,
    and passes every other register on the way. */
module XorshiftPeriod {
  import opened Divisors
  import opened PowerOfTwo
  import opened Xorshift
  import opened StepAlgebra
  import opened StepPowers

  const PERIOD: nat := 0xffff_ffff

  /** The generator's default seed. */
  const DEFAULT_SEED: Register := 0x5eed_1e11

  // ------------------------------------------------------------- powers by squaring --

  /** The powers of two. */
  lemma TwoToThe16()
    ensures Is(0x1_0000, Poly(0x80ad_6e7a)) && Small(Poly(0x80ad_6e7a))
  {
    hide Is, Small;
    OneStep();
    Doubling(0x1, 0x2, 0x4);
    Doubling(0x2, 0x4, 0x10);
    Doubling(0x4, 0x10, 0x100);
    Doubling(0x8, 0x100, 0x1_0000);
    Doubling(0x10, 0x1_0000, 0x3e_c241);
    Doubling(0x20, 0x3e_c241, 0x9968_e855);
    Doubling(0x40, 0x9968_e855, 0x3d22_aa5f);
    Doubling(0x80, 0x3d22_aa5f, 0x8f64_cbe9);
    Doubling(0x100, 0x8f64_cbe9, 0x4de7_b28f);
    Doubling(0x200, 0x4de7_b28f, 0xca26_a09e);
    Doubling(0x400, 0xca26_a09e, 0x5af3_f93e);
    Doubling(0x800, 0x5af3_f93e, 0x58d4_9ae1);
    Doubling(0x1000, 0x58d4_9ae1, 0xa8a5_a8da);
    Doubling(0x2000, 0xa8a5_a8da, 0xf80f_61b2);
    Doubling(0x4000, 0xf80f_61b2, 0xa1d2_664f);
    Doubling(0x8000, 0xa1d2_664f, 0x80ad_6e7a);
  }

  lemma TwoToThe32()
    requires Is(0x1_0000, Poly(0x80ad_6e7a)) && Small(Poly(0x80ad_6e7a))
    ensures Is(0x1_0000_0000, Poly(0x2)) && Small(Poly(0x2))
  {
    hide Is, Small;
    Doubling(0x1_0000, 0x80ad_6e7a, 0x34b4_f01f);
    Doubling(0x2_0000, 0x34b4_f01f, 0x1058_187d);
    Doubling(0x4_0000, 0x1058_187d, 0xc9cf_d3d5);
    Doubling(0x8_0000, 0xc9cf_d3d5, 0x3d99_8ff3);
    Doubling(0x10_0000, 0x3d99_8ff3, 0xf015_8c73);
    Doubling(0x20_0000, 0xf015_8c73, 0x17c_affb);
    Doubling(0x40_0000, 0x17c_affb, 0xa6a0_0168);
    Doubling(0x80_0000, 0xa6a0_0168, 0x17ec_2bc1);
    Doubling(0x100_0000, 0x17ec_2bc1, 0x1130_b133);
    Doubling(0x200_0000, 0x1130_b133, 0x5255_f2bc);
    Doubling(0x400_0000, 0x5255_f2bc, 0xd427_afcf);
    Doubling(0x800_0000, 0xd427_afcf, 0xe772_825f);
    Doubling(0x1000_0000, 0xe772_825f, 0xaaf6_0c53);
    Doubling(0x2000_0000, 0xaaf6_0c53, 0x722b_754e);
    Doubling(0x4000_0000, 0x722b_754e, 0xe750_5040);
    Doubling(0x8000_0000, 0xe750_5040, 0x2);
  }

  /** A 3-th of the period. */
  lemma ThirdBegins()
    ensures Is(0xaaaa, Poly(0xd77f_1ec2)) && Small(Poly(0xd77f_1ec2))
  {
    hide Is, Small;
    OneStep();
    Doubling(0x1, 0x2, 0x4);
    DoublingAndOne(0x2, 0x4, 0x20);
    Doubling(0x5, 0x20, 0x400);
    DoublingAndOne(0xa, 0x400, 0x20_0000);
    Doubling(0x15, 0x20_0000, 0xfb09_0400);
    DoublingAndOne(0x2a, 0xfb09_0400, 0xdb0a_ebb4);
    Doubling(0x55, 0xdb0a_ebb4, 0x6f7c_ff93);
    DoublingAndOne(0xaa, 0x6f7c_ff93, 0x2046_5446);
    Doubling(0x155, 0x2046_5446, 0xa809_6fdf);
    DoublingAndOne(0x2aa, 0xa809_6fdf, 0xdd1d_5a39);
    Doubling(0x555, 0xdd1d_5a39, 0x7a90_b940);
    DoublingAndOne(0xaaa, 0x7a90_b940, 0x122c_245e);
    Doubling(0x1555, 0x122c_245e, 0xfa8b_6838);
    DoublingAndOne(0x2aaa, 0xfa8b_6838, 0x1feb_2fde);
    Doubling(0x5555, 0x1feb_2fde, 0xd77f_1ec2);
  }

  lemma ThirdEnds()
    requires Is(0xaaaa, Poly(0xd77f_1ec2)) && Small(Poly(0xd77f_1ec2))
    ensures Is(0x5555_5555, Poly(0x9a1b_191d)) && Small(Poly(0x9a1b_191d))
  {
    hide Is, Small;
    DoublingAndOne(0xaaaa, 0xd77f_1ec2, 0x4850_3e51);
    Doubling(0x1_5555, 0x4850_3e51, 0x4b1d_9502);
    DoublingAndOne(0x2_aaaa, 0x4b1d_9502, 0x6819_bea0);
    Doubling(0x5_5555, 0x6819_bea0, 0xbe9d_c0dd);
    DoublingAndOne(0xa_aaaa, 0xbe9d_c0dd, 0xbd50_ba6e);
    Doubling(0x15_5555, 0xbd50_ba6e, 0xc166_5eaa);
    DoublingAndOne(0x2a_aaaa, 0xc166_5eaa, 0xfbf1_e373);
    Doubling(0x55_5555, 0xfbf1_e373, 0xae52_fe93);
    DoublingAndOne(0xaa_aaaa, 0xae52_fe93, 0x3e8c_70fa);
    Doubling(0x155_5555, 0x3e8c_70fa, 0x4301_50e6);
    DoublingAndOne(0x2aa_aaaa, 0x4301_50e6, 0x27d4_bd83);
    Doubling(0x555_5555, 0x27d4_bd83, 0xd9ac_316c);
    DoublingAndOne(0xaaa_aaaa, 0xd9ac_316c, 0xd758_2466);
    Doubling(0x1555_5555, 0xd758_2466, 0x5953_d14d);
    DoublingAndOne(0x2aaa_aaaa, 0x5953_d14d, 0x9a1b_191d);
  }

  /** A 5-th of the period. */
  lemma FifthBegins()
    ensures Is(0x6666, Poly(0x3e31_435e)) && Small(Poly(0x3e31_435e))
  {
    hide Is, Small;
    OneStep();
    DoublingAndOne(0x1, 0x2, 0x8);
    Doubling(0x3, 0x8, 0x40);
    Doubling(0x6, 0x40, 0x1000);
    DoublingAndOne(0xc, 0x1000, 0x200_0000);
    DoublingAndOne(0x19, 0x200_0000, 0x38a9_1076);
    Doubling(0x33, 0x38a9_1076, 0xc2dc_5a30);
    Doubling(0x66, 0xc2dc_5a30, 0x5df8_6bd3);
    DoublingAndOne(0xcc, 0x5df8_6bd3, 0x7973_5ff9);
    DoublingAndOne(0x199, 0x7973_5ff9, 0x404d_5144);
    Doubling(0x333, 0x404d_5144, 0xa89e_e2f3);
    Doubling(0x666, 0xa89e_e2f3, 0x22f5_7bf6);
    DoublingAndOne(0xccc, 0x22f5_7bf6, 0x898e_a09d);
    DoublingAndOne(0x1999, 0x898e_a09d, 0x3a81_7041);
    Doubling(0x3333, 0x3a81_7041, 0x3e31_435e);
  }

  lemma FifthEnds()
    requires Is(0x6666, Poly(0x3e31_435e)) && Small(Poly(0x3e31_435e))
    ensures Is(0x3333_3333, Poly(0xa15_dd03)) && Small(Poly(0xa15_dd03))
  {
    hide Is, Small;
    Doubling(0x6666, 0x3e31_435e, 0x3e73_3a28);
    DoublingAndOne(0xcccc, 0x3e73_3a28, 0x8f62_23b7);
    DoublingAndOne(0x1_9999, 0x8f62_23b7, 0x3561_1d9e);
    Doubling(0x3_3333, 0x3561_1d9e, 0xe3a5_479f);
    Doubling(0x6_6666, 0xe3a5_479f, 0xebe7_99e6);
    DoublingAndOne(0xc_cccc, 0xebe7_99e6, 0x268d_e763);
    DoublingAndOne(0x19_9999, 0x268d_e763, 0xa5b3_6461);
    Doubling(0x33_3333, 0xa5b3_6461, 0xe6ab_da40);
    Doubling(0x66_6666, 0xe6ab_da40, 0x1046_a6b5);
    DoublingAndOne(0xcc_cccc, 0x1046_a6b5, 0x7dc2_3dc3);
    DoublingAndOne(0x199_9999, 0x7dc2_3dc3, 0x62b6_2f08);
    Doubling(0x333_3333, 0x62b6_2f08, 0x60f0_2b8d);
    Doubling(0x666_6666, 0x60f0_2b8d, 0x93c4_9870);
    DoublingAndOne(0xccc_cccc, 0x93c4_9870, 0x6f29_5677);
    DoublingAndOne(0x1999_9999, 0x6f29_5677, 0xa15_dd03);
  }

  /** A 17-th of the period. */
  lemma SeventeenthBegins()
    ensures Is(0x3c3c, Poly(0xfde4_98b5)) && Small(Poly(0xfde4_98b5))
  {
    hide Is, Small;
    OneStep();
    DoublingAndOne(0x1, 0x2, 0x8);
    DoublingAndOne(0x3, 0x8, 0x80);
    DoublingAndOne(0x7, 0x80, 0x8000);
    Doubling(0xf, 0x8000, 0x4000_0000);
    Doubling(0x1e, 0x4000_0000, 0x599a_d231);
    Doubling(0x3c, 0x599a_d231, 0x9f20_e1f3);
    Doubling(0x78, 0x9f20_e1f3, 0xb3b2_801f);
    DoublingAndOne(0xf0, 0xb3b2_801f, 0x940d_0b4b);
    DoublingAndOne(0x1e1, 0x940d_0b4b, 0x1d75_1a74);
    DoublingAndOne(0x3c3, 0x1d75_1a74, 0x9b02_664c);
    DoublingAndOne(0x787, 0x9b02_664c, 0xf20f_d144);
    Doubling(0xf0f, 0xf20f_d144, 0x3df0_fa91);
    Doubling(0x1e1e, 0x3df0_fa91, 0xfde4_98b5);
  }

  lemma SeventeenthEnds()
    requires Is(0x3c3c, Poly(0xfde4_98b5)) && Small(Poly(0xfde4_98b5))
    ensures Is(0xf0f_0f0f, Poly(0x453f_c3bf)) && Small(Poly(0x453f_c3bf))
  {
    hide Is, Small;
    Doubling(0x3c3c, 0xfde4_98b5, 0xeb01_a101);
    Doubling(0x7878, 0xeb01_a101, 0x33be_a49c);
    DoublingAndOne(0xf0f0, 0x33be_a49c, 0x483f_f6eb);
    DoublingAndOne(0x1_e1e1, 0x483f_f6eb, 0x155_fb20);
    DoublingAndOne(0x3_c3c3, 0x155_fb20, 0x866e_0c58);
    DoublingAndOne(0x7_8787, 0x866e_0c58, 0x2195_b90a);
    Doubling(0xf_0f0f, 0x2195_b90a, 0x58e3_4d78);
    Doubling(0x1e_1e1e, 0x58e3_4d78, 0x3f52_43ce);
    Doubling(0x3c_3c3c, 0x3f52_43ce, 0xeedd_1110);
    Doubling(0x78_7878, 0xeedd_1110, 0xafce_c893);
    DoublingAndOne(0xf0_f0f0, 0xafce_c893, 0xbc2e_46b8);
    DoublingAndOne(0x1e1_e1e1, 0xbc2e_46b8, 0xec70_a52e);
    DoublingAndOne(0x3c3_c3c3, 0xec70_a52e, 0x6040_9605);
    DoublingAndOne(0x787_8787, 0x6040_9605, 0x453f_c3bf);
  }

  /** A 257-th of the period. */
  lemma Part257Begins()
    ensures Is(0xff0, Poly(0x30a5_743f)) && Small(Poly(0x30a5_743f))
  {
    hide Is, Small;
    OneStep();
    DoublingAndOne(0x1, 0x2, 0x8);
    DoublingAndOne(0x3, 0x8, 0x80);
    DoublingAndOne(0x7, 0x80, 0x8000);
    DoublingAndOne(0xf, 0x8000, 0x8000_0000);
    DoublingAndOne(0x1f, 0x8000_0000, 0xccab_150a);
    DoublingAndOne(0x3f, 0xccab_150a, 0x9e8e_340f);
    DoublingAndOne(0x7f, 0x9e8e_340f, 0xc7ad_04d4);
    Doubling(0xff, 0xc7ad_04d4, 0xd369_3d13);
    Doubling(0x1fe, 0xd369_3d13, 0xecb5_63f1);
    Doubling(0x3fc, 0xecb5_63f1, 0xbe40_d62a);
    Doubling(0x7f8, 0xbe40_d62a, 0x30a5_743f);
  }

  lemma Part257Ends()
    requires Is(0xff0, Poly(0x30a5_743f)) && Small(Poly(0x30a5_743f))
    ensures Is(0xff_00ff, Poly(0x2a76_9229)) && Small(Poly(0x2a76_9229))
  {
    hide Is, Small;
    Doubling(0xff0, 0x30a5_743f, 0x1fe6_bfd0);
    Doubling(0x1fe0, 0x1fe6_bfd0, 0x9a1d_6887);
    Doubling(0x3fc0, 0x9a1d_6887, 0x8c0d_754c);
    Doubling(0x7f80, 0x8c0d_754c, 0xcb02_8dd9);
    DoublingAndOne(0xff00, 0xcb02_8dd9, 0xc284_750a);
    DoublingAndOne(0x1_fe01, 0xc284_750a, 0x94f_1069);
    DoublingAndOne(0x3_fc03, 0x94f_1069, 0xc725_ddf1);
    DoublingAndOne(0x7_f807, 0xc725_ddf1, 0x788d_691a);
    DoublingAndOne(0xf_f00f, 0x788d_691a, 0xedc5_7882);
    DoublingAndOne(0x1f_e01f, 0xedc5_7882, 0xa358_46a4);
    DoublingAndOne(0x3f_c03f, 0xa358_46a4, 0x4cd8_6d1e);
    DoublingAndOne(0x7f_807f, 0x4cd8_6d1e, 0x2a76_9229);
  }

  /** The number of draws from the all-ones register to the default seed. */
  lemma SeedBegins()
    ensures Is(0xef37, Poly(0x61cb_6dc5)) && Small(Poly(0x61cb_6dc5))
  {
    hide Is, Small;
    OneStep();
    DoublingAndOne(0x1, 0x2, 0x8);
    DoublingAndOne(0x3, 0x8, 0x80);
    Doubling(0x7, 0x80, 0x4000);
    DoublingAndOne(0xe, 0x4000, 0x2000_0000);
    DoublingAndOne(0x1d, 0x2000_0000, 0xacd2_0838);
    DoublingAndOne(0x3b, 0xacd2_0838, 0xcf8f_11d9);
    DoublingAndOne(0x77, 0xcf8f_11d9, 0xd9c6_212f);
    Doubling(0xef, 0xd9c6_212f, 0x7289_c9b1);
    Doubling(0x1de, 0x7289_c9b1, 0xe82c_15de);
    DoublingAndOne(0x3bc, 0xe82c_15de, 0xb529_f8ba);
    DoublingAndOne(0x779, 0xb529_f8ba, 0x646c_1f12);
    Doubling(0xef3, 0x646c_1f12, 0x64c6_1156);
    DoublingAndOne(0x1de6, 0x64c6_1156, 0x421d_039a);
    DoublingAndOne(0x3bcd, 0x421d_039a, 0xeed6_58be);
    DoublingAndOne(0x779b, 0xeed6_58be, 0x61cb_6dc5);
  }

  lemma SeedEnds()
    requires Is(0xef37, Poly(0x61cb_6dc5)) && Small(Poly(0x61cb_6dc5))
    ensures Is(0x779b_8259, Poly(0x8a09_9d4b)) && Small(Poly(0x8a09_9d4b))
  {
    hide Is, Small;
    Doubling(0xef37, 0x61cb_6dc5, 0x8e6b_658b);
    Doubling(0x1_de6e, 0x8e6b_658b, 0xc22f_2a20);
    Doubling(0x3_bcdc, 0xc22f_2a20, 0xd04f_af9a);
    Doubling(0x7_79b8, 0xd04f_af9a, 0x8efe_7121);
    Doubling(0xe_f370, 0x8efe_7121, 0x4ff1_d4fa);
    DoublingAndOne(0x1d_e6e0, 0x4ff1_d4fa, 0xff58_6101);
    Doubling(0x3b_cdc1, 0xff58_6101, 0xda5d_80b5);
    Doubling(0x77_9b82, 0xda5d_80b5, 0x6db0_f4ba);
    DoublingAndOne(0xef_3704, 0x6db0_f4ba, 0xbbae_b20a);
    Doubling(0x1de_6e09, 0xbbae_b20a, 0x38f5_5135);
    DoublingAndOne(0x3bc_dc12, 0x38f5_5135, 0x1849_d34c);
    DoublingAndOne(0x779_b825, 0x1849_d34c, 0xc400_28c8);
    Doubling(0xef3_704b, 0xc400_28c8, 0x4add_2818);
    Doubling(0x1de6_e096, 0x4add_2818, 0xebe1_66a6);
    DoublingAndOne(0x3bcd_c12c, 0xebe1_66a6, 0x8a09_9d4b);
  }

  // ------------------------------------------------------------- where they lead --

  lemma At65535th()
    ensures Act(Poly(0x80ad_6e7a), ONES) == Vec(0xf3a6_135e)
  {
    hide Act;
    NoPoly();
    Ever(0x8, 0x0, 0x0, 0x74bb_9843);
    Ever(0x80, 0x8, 0x74bb_9843, 0x65a1_ffb0);
    Ever(0x80a, 0x80, 0x65a1_ffb0, 0x9082_80b3);
    Ever(0x80ad, 0x80a, 0x9082_80b3, 0xf259_2380);
    Ever(0x8_0ad6, 0x80ad, 0xf259_2380, 0x5bd4_b787);
    Ever(0x80_ad6e, 0x8_0ad6, 0x5bd4_b787, 0x1cb4_7c72);
    Ever(0x80a_d6e7, 0x80_ad6e, 0x1cb4_7c72, 0x7b90_2745);
    Ever(0x80ad_6e7a, 0x80a_d6e7, 0x7b90_2745, 0xf3a6_135e);
  }

  lemma AtThird()
    ensures Act(Poly(0x9a1b_191d), ONES) == Vec(0xb418_8d7d)
  {
    hide Act;
    NoPoly();
    Ever(0x9, 0x0, 0x0, 0x8b44_67bc);
    Ever(0x9a, 0x9, 0x8b44_67bc, 0xe0d5_0f36);
    Ever(0x9a1, 0x9a, 0xe0d5_0f36, 0x14e1_97ca);
    Ever(0x9a1b, 0x9a1, 0x14e1_97ca, 0x6929_327a);
    Ever(0x9_a1b1, 0x9a1b, 0x6929_327a, 0x881_cb50);
    Ever(0x9a_1b19, 0x9_a1b1, 0x881_cb50, 0xf784_6da2);
    Ever(0x9a1_b191, 0x9a_1b19, 0xf784_6da2, 0xe029_5c02);
    Ever(0x9a1b_191d, 0x9a1_b191, 0xe029_5c02, 0xb418_8d7d);
  }

  lemma AtFifth()
    ensures Act(Poly(0xa15_dd03), ONES) == Vec(0x5867_c0e1)
  {
    hide Act;
    NoPoly();
    Ever(0xa, 0x0, 0x0, 0x74b8_785c);
    Ever(0xa1, 0xa, 0x74b8_785c, 0xe076_eede);
    Ever(0xa15, 0xa1, 0xe076_eede, 0xa4ca_f5c7);
    Ever(0xa15d, 0xa15, 0xa4ca_f5c7, 0xe48b_6658);
    Ever(0xa_15dd, 0xa15d, 0xe48b_6658, 0x9cf1_dc52);
    Ever(0xa1_5dd0, 0xa_15dd, 0x9cf1_dc52, 0x9dae_fa35);
    Ever(0xa15_dd03, 0xa1_5dd0, 0x9dae_fa35, 0x5867_c0e1);
  }

  lemma AtSeventeenth()
    ensures Act(Poly(0x453f_c3bf), ONES) == Vec(0x54ba_18fe)
  {
    hide Act;
    NoPoly();
    Ever(0x4, 0x0, 0x0, 0xfc07_fdff);
    Ever(0x45, 0x4, 0xfc07_fdff, 0x9b5d_52ec);
    Ever(0x453, 0x45, 0x9b5d_52ec, 0xf3f5_ccd9);
    Ever(0x453f, 0x453, 0xf3f5_ccd9, 0x3f68_e64b);
    Ever(0x4_53fc, 0x453f, 0x3f68_e64b, 0x855d_17ac);
    Ever(0x45_3fc3, 0x4_53fc, 0x855d_17ac, 0xb26d_aa54);
    Ever(0x453_fc3b, 0x45_3fc3, 0xb26d_aa54, 0x176e_d5c7);
    Ever(0x453f_c3bf, 0x453_fc3b, 0x176e_d5c7, 0x54ba_18fe);
  }

  lemma AtPart257()
    ensures Act(Poly(0x2a76_9229), ONES) == Vec(0x6941_0410)
  {
    hide Act;
    NoPoly();
    Ever(0x2, 0x0, 0x0, 0x3_e01f);
    Ever(0x2a, 0x2, 0x3_e01f, 0xe90_96cd);
    Ever(0x2a7, 0x2a, 0xe90_96cd, 0xaeb6_74cc);
    Ever(0x2a76, 0x2a7, 0xaeb6_74cc, 0xc924_596e);
    Ever(0x2_a769, 0x2a76, 0xc924_596e, 0xf452_8272);
    Ever(0x2a_7692, 0x2_a769, 0xf452_8272, 0x6dbd_536f);
    Ever(0x2a7_6922, 0x2a_7692, 0x6dbd_536f, 0x88fd_14d3);
    Ever(0x2a76_9229, 0x2a7_6922, 0x88fd_14d3, 0x6941_0410);
  }

  lemma AtSeed()
    ensures Act(Poly(0x8a09_9d4b), ONES) == Vec(0x5eed_1e11)
  {
    hide Act;
    NoPoly();
    Ever(0x8, 0x0, 0x0, 0x74bb_9843);
    Ever(0x8a, 0x8, 0x74bb_9843, 0x1119_87ec);
    Ever(0x8a0, 0x8a, 0x1119_87ec, 0xfbb3_e9ce);
    Ever(0x8a09, 0x8a0, 0xfbb3_e9ce, 0x4729_b043);
    Ever(0x8_a099, 0x8a09, 0x4729_b043, 0x8c3_47fc);
    Ever(0x8a_099d, 0x8_a099, 0x8c3_47fc, 0x57bc_05c3);
    Ever(0x8a0_99d4, 0x8a_099d, 0x57bc_05c3, 0xa0e1_9449);
    Ever(0x8a09_9d4b, 0x8a0_99d4, 0xa0e1_9449, 0x5eed_1e11);
  }

  lemma IsAfter(e: nat, w: bv64, v: Register)
    requires Is(e, Poly(w)) && Act(Poly(w), ONES) == Vec(v)
    ensures After(TOP, e) == v
  {
    FarIsAfter(TOP, e);
    hide Act, Far, After;
  }

  lemma {:induction false} AfterThen(s: Register, m: nat, n: nat)
    ensures After(s, m + n) == After(After(s, m), n)
  {
    hide Step;
    if n > 0 {
      AfterThen(s, m, n - 1);
    }
  }

  /** The default seed is 2006680153 draws after the all-ones register. */
  lemma DefaultSeedAfter()
    ensures After(TOP, 2006680153) == DEFAULT_SEED
  {
    hide Is, Act, After, Small;
    SeedBegins();
    SeedEnds();
    AtSeed();
    IsAfter(0x779b_8259, 0x8a09_9d4b, 0x5eed_1e11);
  }

  ghost predicate Returns(m: nat) {
    After(TOP, m) == TOP
  }

  lemma FirstStep()
    ensures Step(TOP) == 0x3_e01f && After(TOP, 1) == Step(TOP)
  {
    assert After(TOP, 0) == TOP;
  }

  lemma ReturnsAfterPeriod()
    ensures Returns(PERIOD)
  {
    OneStep();
    TwoToThe16();
    TwoToThe32();
    FarIsAfter(TOP, 0x1_0000_0000);
    FarIsAfter(TOP, 1);
    hide Act, Far, After, Step, Small;
    AfterThen(TOP, PERIOD, 1);
    RunsNeverMerge(After(TOP, PERIOD), TOP, 1);
  }

  lemma NotAfter65535()
    ensures !Returns(65535)
  {
    TwoToThe16();
    At65535th();
    FirstStep();
    hide Is, Act, After, Step, Small;
    IsAfter(0x1_0000, 0x80ad_6e7a, 0xf3a6_135e);
    AfterThen(TOP, 65535, 1);
  }

  lemma NotAfterThird()
    ensures !Returns(1431655765) && !Returns(858993459)
  {
    hide Is, Act, After, Small;
    ThirdBegins();
    ThirdEnds();
    AtThird();
    FifthBegins();
    FifthEnds();
    AtFifth();
    IsAfter(0x5555_5555, 0x9a1b_191d, 0xb418_8d7d);
    IsAfter(0x3333_3333, 0xa15_dd03, 0x5867_c0e1);
  }

  lemma NotAfterSeventeenth()
    ensures !Returns(252645135) && !Returns(16711935)
  {
    hide Is, Act, After, Small;
    SeventeenthBegins();
    SeventeenthEnds();
    AtSeventeenth();
    Part257Begins();
    Part257Ends();
    AtPart257();
    IsAfter(0xf0f_0f0f, 0x453f_c3bf, 0x54ba_18fe);
    IsAfter(0xff_00ff, 0x2a76_9229, 0x6941_0410);
  }

  lemma {:induction false} ReturnsAgain(m: nat, k: nat)
    requires Returns(m)
    ensures Returns(m * k)
  {
    hide Step;
    if k > 0 {
      ReturnsAgain(m, k - 1);
      assert m * k == m * (k - 1) + m;
      AfterThen(TOP, m * (k - 1), m);
    }
  }

  lemma ReturnsRest(m: nat, n: nat)
    requires Returns(m + n) && Returns(n)
    ensures Returns(m)
  {
    AfterThen(TOP, n, m);
  }

  // ---------------------------------------------------------- the factors of the period --

  predicate Misses(f: nat, a: nat) {
    && a > 1 && f % a != 0 && f % (a + 1) != 0 && f % (a + 2) != 0 && f % (a + 3) != 0
    && f % (a + 4) != 0 && f % (a + 5) != 0 && f % (a + 6) != 0 && f % (a + 7) != 0
    && f % (a + 8) != 0 && f % (a + 9) != 0 && f % (a + 10) != 0 && f % (a + 11) != 0
    && f % (a + 12) != 0 && f % (a + 13) != 0 && f % (a + 14) != 0 && f % (a + 15) != 0
  }

  lemma Misses65537(k: nat)
    requires k < 16
    ensures Misses(65537, 2 + 16 * k)
  {
    match k
    case 0 => assert Misses(65537, 2);
    case 1 => assert Misses(65537, 18);
    case 2 => assert Misses(65537, 34);
    case 3 => assert Misses(65537, 50);
    case 4 => assert Misses(65537, 66);
    case 5 => assert Misses(65537, 82);
    case 6 => assert Misses(65537, 98);
    case 7 => assert Misses(65537, 114);
    case 8 => assert Misses(65537, 130);
    case 9 => assert Misses(65537, 146);
    case 10 => assert Misses(65537, 162);
    case 11 => assert Misses(65537, 178);
    case 12 => assert Misses(65537, 194);
    case 13 => assert Misses(65537, 210);
    case 14 => assert Misses(65537, 226);
    case 15 => assert Misses(65537, 242);
  }

  /** Nothing up to the root divides f. */
  ghost predicate Prime(f: nat) {
    f > 1 && forall a: nat | a > 1 && a * a <= f :: f % a != 0
  }

  predicate Factor(f: nat) {
    f == 3 || f == 5 || f == 17 || f == 257 || f == 65537
  }

  lemma SmallPrime(f: nat)
    requires f == 3 || f == 5 || f == 17 || f == 257
    ensures Prime(f)
  {
    assert Misses(257, 2);
    forall a: nat | a > 1 && a * a <= f ensures f % a != 0 {
      assert a > 16 ==> a * a >= 17 * 17;
      assert a > 4 ==> a * a >= 5 * 5;
    }
  }

  lemma NoDivisor(a: nat)
    requires 2 <= a <= 256
    ensures 65537 % a != 0
  {
    var k := (a - 2) / 16;
    Misses65537(k);
    var r := a - (2 + 16 * k);
    assert 0 <= r < 16;
  }

  lemma BelowRoot(a: nat)
    requires a * a <= 65537
    ensures a <= 256
  {
    assert a > 256 ==> a * a >= 257 * 257;
  }

  lemma LargePrime()
    ensures Prime(65537)
  {
    forall a: nat | a > 1 && a * a <= 65537 ensures 65537 % a != 0 {
      BelowRoot(a);
      NoDivisor(a);
    }
  }

  lemma ProductRemainder(g: nat, q: nat)
    requires g > 0
    ensures (g * q) % g == 0
  {
    Remainder(g * q, g, q, 0);
  }

  lemma SmallerSquare(g: nat, q: nat)
    ensures g <= q ==> g * g <= g * q
    ensures q <= g ==> q * q <= q * g
    ensures g * q == q * g
  {
  }

  lemma OnlyFactors(f: nat, g: nat, q: nat)
    requires Prime(f) && g * q == f
    ensures g == 1 || g == f
  {
    SmallerSquare(g, q);
    assert g > 0 && q > 0;
    ProductRemainder(g, q);
    ProductRemainder(q, g);
  }

  /** A prime that divides a product and not its second factor divides the first. */
  lemma Strip(f: nat, g: nat, q: nat, m: nat) returns (h: nat)
    requires Prime(f) && g * q == f * m && q % f != 0 && g > 0
    ensures g == f * h && h * q == m && h > 0
  {
    var p, r, x, y := Bezout(q, f);
    OnlyFactors(f, Gcd(q, f), r);
    if Gcd(q, f) == f {
      ProductRemainder(f, p);
      assert false;
    }
    var z := m * x + g * y;
    assert g == f * z by {
      assert g * (q * x + f * y) == g * 1;
      assert g * (q * x + f * y) == (g * q) * x + g * (f * y);
      assert (f * m) * x == f * (m * x) && g * (f * y) == f * (g * y);
    }
    SignOf(f, z);
    h := z;
    assert f * (h * q) == f * m by {
      assert (f * h) * q == f * (h * q);
    }
    Cancels(f, h * q, m);
  }

  lemma SignOf(f: nat, z: int)
    requires f > 0
    ensures f * z > 0 <==> z > 0
    ensures f * z < 0 <==> z < 0
  {
  }

  lemma Cancels(f: nat, x: int, y: int)
    requires f > 0 && f * x == f * y
    ensures x == y
  {
    SignOf(f, x - y);
    assert f * (x - y) == f * x - f * y;
  }

  /** Every divisor of the period but 1 has one of its five prime factors. */
  lemma FactorOf(g: nat, q: nat) returns (f: nat)
    requires g * q == PERIOD && q > 1
    ensures Factor(f) && q % f == 0
  {
    if q % 3 == 0 {
      return 3;
    } else if q % 5 == 0 {
      return 5;
    } else if q % 17 == 0 {
      return 17;
    } else if q % 257 == 0 {
      return 257;
    } else if q % 65537 == 0 {
      return 65537;
    }
    SmallPrime(3);
    SmallPrime(5);
    SmallPrime(17);
    SmallPrime(257);
    LargePrime();
    hide *;
    var g1 := Strip(3, g, q, 1431655765);
    var g2 := Strip(5, g1, q, 286331153);
    var g3 := Strip(17, g2, q, 16843009);
    var g4 := Strip(257, g3, q, 65537);
    var g5 := Strip(65537, g4, q, 1);
    assert false;
  }

  // ------------------------------------------------------------------- the period --

  lemma ReturnsCombined(m: nat, n: nat, x: int, y: int, g: nat)
    requires Returns(m) && Returns(n) && m * x + n * y == g
    ensures Returns(g)
  {
    hide Returns;
    if x >= 0 && y >= 0 {
      ReturnsAgain(m, x);
      ReturnsAgain(n, y);
      ReturnsBoth(m * x, n * y);
    } else if x < 0 && y < 0 {
      assert m * x <= 0 && n * y <= 0;
      ReturnsAgain(m, 0);
    } else if y < 0 {
      ReturnsAgain(m, x);
      ReturnsAgain(n, -y);
      assert n * -y == -(n * y);
      ReturnsRest(g, n * -y);
    } else {
      ReturnsAgain(m, -x);
      ReturnsAgain(n, y);
      assert m * -x == -(m * x);
      ReturnsRest(g, m * -x);
    }
  }

  lemma ReturnsBoth(m: nat, n: nat)
    requires Returns(m) && Returns(n)
    ensures Returns(m + n)
  {
    AfterThen(TOP, m, n);
  }

  lemma NotAfterPart(f: nat)
    requires Factor(f)
    ensures !Returns(PERIOD / f)
  {
    hide Returns;
    NotAfterThird();
    NotAfterSeventeenth();
    NotAfter65535();
  }

  lemma Part(g: nat, f: nat, r: nat)
    requires f > 0 && g * (f * r) == PERIOD
    ensures PERIOD / f == g * r
  {
    assert g * (f * r) == f * (g * r);
    Remainder(PERIOD, f, g * r, 0);
  }

  /** A run comes back to the all-ones register exactly after the multiples of the period. */
  lemma ReturnsExactlyWhen(m: nat)
    ensures After(TOP, m) == TOP <==> m % PERIOD == 0
  {
    ReturnsAfterPeriod();
    assert Returns(m) <==> After(TOP, m) == TOP;
    hide Returns, After;
    if m % PERIOD == 0 {
      ReturnsAgain(PERIOD, m / PERIOD);
    }
    if Returns(m) {
      var p, q, x, y := Bezout(m, PERIOD);
      var g := Gcd(m, PERIOD);
      ReturnsCombined(m, PERIOD, x, y, g);
      if q > 1 {
        var f := FactorOf(g, q);
        var r := q / f;
        assert q == f * r;
        Part(g, f, r);
        ReturnsAgain(g, r);
        NotAfterPart(f);
        assert false;
      }
      assert q == 1;
      ProductRemainder(PERIOD, p);
    }
  }

  function Number(s: Register): nat {
    s as int
  }

  lemma NumberIsInjective(s: Register, t: Register)
    ensures Number(s) == Number(t) ==> s == t
    ensures s != 0 ==> 0 < Number(s) <= PERIOD
  {
    assert s as int as bv32 == s;
    EndsAsInt(s);
  }

  /** The registers of the run from the all-ones register, as numbers. */
  function Seen(n: nat): set<int> {
    if n == 0 then {} else Seen(n - 1) + {Number(After(TOP, n - 1))}
  }

  lemma {:induction false} SeenAt(n: nat, v: int)
    ensures v in Seen(n) <==> exists m: nat | m < n :: Number(After(TOP, m)) == v
  {
    hide After, Number;
    if n > 0 {
      SeenAt(n - 1, v);
      if v == Number(After(TOP, n - 1)) {
        assert v in Seen(n);
      }
    }
  }

  lemma NoneTwice(m: nat, n: nat)
    requires m < n < PERIOD
    ensures After(TOP, m) != After(TOP, n)
  {
    if After(TOP, m) == After(TOP, n) {
      hide Step, After;
      assert n == (n - m) + m;
      AfterThen(TOP, n - m, m);
      RunsNeverMerge(After(TOP, n - m), TOP, m);
      ReturnsExactlyWhen(n - m);
    }
  }

  lemma {:induction false} SeenSize(n: nat)
    requires n <= PERIOD
    ensures |Seen(n)| == n && forall v | v in Seen(n) :: 0 < v <= PERIOD
  {
    hide After, Number;
    if n > 0 {
      SeenSize(n - 1);
      RunStaysNonZero(TOP, n - 1);
      NumberIsInjective(After(TOP, n - 1), TOP);
      if Number(After(TOP, n - 1)) in Seen(n - 1) {
        SeenAt(n - 1, Number(After(TOP, n - 1)));
        var m: nat :| m < n - 1 && Number(After(TOP, m)) == Number(After(TOP, n - 1));
        NumberIsInjective(After(TOP, m), After(TOP, n - 1));
        NoneTwice(m, n - 1);
      }
    }
  }

  lemma {:induction false} FullSet(s: set<int>, n: nat)
    requires (forall x :: x in s ==> 0 < x <= n) && |s| == n
    ensures forall x :: 0 < x <= n ==> x in s
  {
    if n > 0 {
      if n !in s {
        Within(s, n - 1);
      }
      FullSet(s - {n}, n - 1);
    }
  }

  lemma {:induction false} Within(s: set<int>, n: nat)
    requires forall x :: x in s ==> 0 < x <= n
    ensures |s| <= n
  {
    if n == 0 {
      assert forall x :: x !in s;
      assert s == {};
    } else {
      Within(s - {n}, n - 1);
    }
  }

  /** Every register but zero is on the run of the all-ones register. */
  lemma OnTheRun(s: Register) returns (m: nat)
    requires s != 0
    ensures m < PERIOD && After(TOP, m) == s
  {
    hide After;
    hide Number;
    SeenSize(PERIOD);
    FullSet(Seen(PERIOD), PERIOD);
    NumberIsInjective(s, TOP);
    SeenAt(PERIOD, Number(s));
    m :| m < PERIOD && Number(After(TOP, m)) == Number(s);
    NumberIsInjective(After(TOP, m), s);
  }

  /** Full period: from any seed but zero, a run is back at the seed exactly after the multiples of 2^32 - 1 draws. */
  lemma FullPeriod(s: Register, n: nat)
    requires s != 0
    ensures After(s, n) == s <==> n % PERIOD == 0
  {
    hide After, Step;
    var m := OnTheRun(s);
    AfterThen(TOP, m, n);
    AfterThen(TOP, n, m);
    assert m + n == n + m;
    ReturnsExactlyWhen(n);
    if After(s, n) == s {
      RunsNeverMerge(After(TOP, n), TOP, m);
    }
  }

  /** And it passes every other register but zero on the way. */
  lemma ReachesAll(s: Register, t: Register) returns (n: nat)
    requires s != 0 && t != 0
    ensures After(s, n) == t
  {
    hide After, Step;
    var i := OnTheRun(s);
    var j := OnTheRun(t);
    n := PERIOD - i + j;
    AfterThen(TOP, i, n);
    ReturnsExactlyWhen(PERIOD);
    AfterThen(TOP, PERIOD, j);
    assert i + n == PERIOD + j;
  }
}
