/// Entities shared by the client and the server (types.ts), plus the
/// Option/Result wrappers used for "not found" and error outcomes.
module Types {

  datatype Option<+T> = None | Some(value: T)

  datatype Result<+T, +E> = Success(value: T) | Failure(error: E)

  /// The three kinds of physical count (InventoryType).
  datatype InventoryType = TotalCount | PartialCount | CyclicalCount

  /// The roles the code actually uses: the enum declares only ADMIN, MANAGER and
  /// WAREHOUSE, but navigation and user management also name SELLER and SUPPLIER.
  datatype UserRole = Admin | Manager | Seller | Supplier | Warehouse

  datatype User = User(id: string, name: string, role: UserRole)

  /// A catalogue product. `rfidTag` and `lastCounted` are optional fields.
  datatype Product = Product(
    id: string,
    sku: string,
    name: string,
    category: string,
    stock: int,
    minStock: int,
    price: real,
    location: string,
    lastCounted: Option<string>,
    rfidTag: Option<string>)
}
