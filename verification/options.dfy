/** The Some/None datatype used wherever the program can raise an exception:
    `None` stands for "an exception was raised here". */
module Options {

  datatype Option<+T> = None | Some(value: T)
}
