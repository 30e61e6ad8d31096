/** The database tables the core reads and writes, standing for the Prisma
    client: crypto wallet rows, user money, equipment rows and wishlists. */
module Store {

  /** A row of the `wallet` table: one crypto holding of one user. */
  datatype WalletRow = WalletRow(id: nat, userId: string, cryptoId: string, quantity: real)

  /** A row of the `equipment` table: one gun owned by one user. */
  datatype EquipmentRow = EquipmentRow(userId: string, gunId: int, gunName: string, gunPrice: real)

  /** A row of the `wishlist` table, keyed by its id. */
  datatype Wishlist = Wishlist(userId: string, wishlistName: string)

  class Db {
    /** The wallet rows, in table order. */
    var wallets: seq<WalletRow>
    /** The `money` column of the `user` table, by user id. */
    var money: map<string, real>
    /** The equipment rows, in table order. */
    var equipment: seq<EquipmentRow>
    /** The wishlists, by wishlist id. */
    var wishlists: map<string, Wishlist>

    constructor (wallets: seq<WalletRow>, money: map<string, real>,
                 equipment: seq<EquipmentRow>, wishlists: map<string, Wishlist>)
      ensures this.wallets == wallets && this.money == money
      ensures this.equipment == equipment && this.wishlists == wishlists
    {
      this.wallets := wallets;
      this.money := money;
      this.equipment := equipment;
      this.wishlists := wishlists;
    }
  }
}
