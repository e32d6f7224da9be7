/** A student group and the table it sits at (common/group.py). */
module Groups {
  datatype Group = Group(number: int, table: int)
}
