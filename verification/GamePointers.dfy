/** Addresses inside the game's 32-bit user space. */
module GamePointers {
  import opened Serial

  predicate Plausible(pointer: u32) { 0x0001_0000 <= pointer < 0x8000_0000 && pointer % 4 == 0 }
}
